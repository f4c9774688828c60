/**
 * CSV output and import of the bundled SQLite shell (RFC 4180): output_csv, the
 * character machine csv_read_one_field, and the row loop of the .import command.
 */
module Csv {
  import opened Common

  type Bytes = seq<byte>

  const QUOTE: byte := 34
  const APOSTROPHE: byte := 39
  const CR: byte := 13
  const LF: byte := 10
  const EOF: int := -1

  /** A separator of one printable character other than the quote. */
  predicate IsSeparator(c: int) {
    32 <= c <= 126 && c != QUOTE
  }

  // ------------------------------------------------------------------ writer

  /** The table needCsvQuote. */
  predicate NeedCsvQuote(c: byte) {
    c <= 32 || c == QUOTE || c == APOSTROPHE || c >= 127
  }

  function Doubled(z: Bytes): (s: Bytes) {
    if z == [] then [] else (if z[0] == QUOTE then [QUOTE, QUOTE] else [z[0]]) + Doubled(z[1..])
  }

  /** A field is written bare when it is non-empty and holds no byte that calls for quotes. */
  predicate Bare(z: Bytes, sep: byte) {
    z != [] && forall k :: 0 <= k < |z| ==> !NeedCsvQuote(z[k]) && z[k] != sep
  }

  function FieldText(z: Bytes, sep: byte): (s: Bytes) {
    if Bare(z, sep) then z else [QUOTE] + Doubled(z) + [QUOTE]
  }

  lemma {:induction false} DoubledSnoc(z: Bytes, c: byte)
    ensures Doubled(z + [c]) == Doubled(z) + (if c == QUOTE then [QUOTE, QUOTE] else [c])
  {
    if z == [] {
      assert (z + [c])[1..] == [];
    } else {
      DoubledSnoc(z[1..], c);
      assert (z + [c])[1..] == z[1..] + [c];
      var d, e := (if z[0] == QUOTE then [QUOTE, QUOTE] else [z[0]]), (if c == QUOTE then [QUOTE, QUOTE] else [c]);
      assert d + (Doubled(z[1..]) + e) == d + Doubled(z[1..]) + e;
    }
  }

  /** output_csv for a separator of one character. */
  method OutputCsv(z: Bytes, sep: byte, bSep: bool) returns (out: Bytes)
    ensures out == FieldText(z, sep) + (if bSep then [sep] else [])
  {
    out := [];
    var i := 0;
    while i < |z|
      invariant 0 <= i <= |z|
      invariant forall k :: 0 <= k < i ==> !NeedCsvQuote(z[k]) && z[k] != sep
    {
      if NeedCsvQuote(z[i]) || z[i] == sep {
        assert !Bare(z, sep);
        i := 0;
        break;
      }
      i := i + 1;
    }
    if i == 0 {
      out := out + [QUOTE];
      i := 0;
      while i < |z|
        invariant 0 <= i <= |z|
        invariant out == [QUOTE] + Doubled(z[..i])
      {
        assert z[..i + 1] == z[..i] + [z[i]];
        DoubledSnoc(z[..i], z[i]);
        if z[i] == QUOTE { out := out + [QUOTE]; }
        out := out + [z[i]];
        i := i + 1;
      }
      assert z[..i] == z;
      out := out + [QUOTE];
    } else {
      out := out + z;
    }
    if bSep {
      out := out + [sep];
    }
  }

  // ------------------------------------------------------------------ reader

  /** One field read: its text (None at the end of the file), its terminator, the input left. */
  datatype Field = Field(text: Option<Bytes>, term: int, rest: Bytes)

  /** fgetc: the next byte or EOF. */
  function Peek(s: Bytes): (c: int) {
    if s == [] then EOF else s[0]
  }

  function Skip(s: Bytes): (r: Bytes) {
    if s == [] then s else s[1..]
  }

  /** Index of the last quote of `z`. */
  function LastQuote(z: Bytes): (k: nat)
    requires QUOTE in z
    ensures k < |z| && z[k] == QUOTE && QUOTE !in z[k + 1..]
  {
    var n := |z| - 1;
    if z[n] == QUOTE then n
    else
      assert z == z[..n] + [z[n]];
      var k := LastQuote(z[..n]);
      assert z[k + 1..] == z[..n][k + 1..] + [z[n]];
      k
  }

  /** The previous characters agree with what was stored, so the closing quote can be found again. */
  predicate Tracked(z: Bytes, pc: int, ppc: int) {
    && (pc == QUOTE ==> z != [] && z[|z| - 1] == QUOTE)
    && (pc == CR && ppc == QUOTE ==> |z| >= 2 && z[|z| - 2] == QUOTE)
  }

  predicate Closes(c: int, pc: int, ppc: int, sep: int, row: int) {
    || (c == sep && pc == QUOTE)
    || (c == row && pc == QUOTE)
    || (c == row && pc == CR && ppc == QUOTE)
    || (c == EOF && pc == QUOTE)
  }

  /** The loop on a quoted field, after its opening quote. */
  function ScanQuoted(s: Bytes, z: Bytes, pc: int, ppc: int, sep: int, row: int): (f: Field)
    requires Tracked(z, pc, ppc)
    ensures f.text.Some? && |f.rest| <= |s|
    decreases |s|
  {
    var c := Peek(s);
    if c == QUOTE && pc == QUOTE then ScanQuoted(s[1..], z, 0, ppc, sep, row)
    else if Closes(c, pc, ppc, sep, row) then Field(Some(z[..LastQuote(z)]), c, Skip(s))
    else if c == EOF then Field(Some(z), c, s)
    else ScanQuoted(s[1..], z + [s[0]], c, pc, sep, row)
  }

  /** The loop on a bare field. */
  function ScanBare(s: Bytes, z: Bytes, sep: int, row: int): (f: Field)
    ensures f.text.Some? && |f.rest| <= |s| && (s != [] ==> |f.rest| < |s|)
    decreases |s|
  {
    var c := Peek(s);
    if c == EOF || c == sep || c == row then
      Field(Some(if c == row && z != [] && z[|z| - 1] == CR then z[..|z| - 1] else z), c, Skip(s))
    else ScanBare(s[1..], z + [s[0]], sep, row)
  }

  function ReadField(s: Bytes, sep: int, row: int): (f: Field)
    ensures f.text.None? <==> s == []
    ensures |f.rest| <= |s| && (s != [] ==> |f.rest| < |s|)
  {
    if s == [] then Field(None, EOF, [])
    else if s[0] == QUOTE then ScanQuoted(s[1..], [], 0, 0, sep, row)
    else ScanBare(s, [], sep, row)
  }

  /** ImportCtx, with the unread part of its file. */
  class ImportCtx {
    var input: Bytes
    var z: Bytes        // the first n bytes of z
    var cTerm: int
    const cColSep: int
    const cRowSep: int

    constructor (input: Bytes, cColSep: int, cRowSep: int)
      ensures this.input == input && this.cColSep == cColSep && this.cRowSep == cRowSep
    {
      this.input, this.cColSep, this.cRowSep := input, cColSep, cRowSep;
      z, cTerm := [], 0;
    }

    method Getc() returns (c: int)
      modifies this`input
      ensures c == Peek(old(input)) && input == Skip(old(input))
      ensures c != EOF ==> 0 <= c < 256
    {
      c := Peek(input);
      input := Skip(input);
    }

    /** csv_read_one_field. */
    method CsvReadOneField() returns (text: Option<Bytes>)
      modifies this`input, this`z, this`cTerm
      ensures var f := ReadField(old(input), cColSep, cRowSep);
              text == f.text && cTerm == f.term && input == f.rest
    {
      z := [];
      var c := Getc();
      if c == EOF {
        cTerm := EOF;
        return None;
      }
      if c == QUOTE {
        ReadQuoted();
      } else {
        assert old(input) == [c] + input;
        ReadBare(c);
      }
      return Some(z);
    }

    /** Its loop for a field that starts with a quote. */
    method ReadQuoted()
      requires z == []
      modifies this`input, this`z, this`cTerm
      ensures ScanQuoted(old(input), [], 0, 0, cColSep, cRowSep) == Field(Some(z), cTerm, input)
    {
      ghost var start := input;
      var c, pc, ppc := 0, 0, 0;
      while true
        invariant Tracked(z, pc, ppc)
        invariant ScanQuoted(input, z, pc, ppc, cColSep, cRowSep) == ScanQuoted(start, [], 0, 0, cColSep, cRowSep)
        decreases |input|
      {
        c := Getc();
        if c == QUOTE && pc == QUOTE {
          pc := 0;
          continue;
        }
        if Closes(c, pc, ppc, cColSep, cRowSep) {
          DropFromQuote();
          cTerm := c;
          return;
        }
        if c == EOF {
          cTerm := c;
          return;
        }
        z := z + [c];
        ppc := pc;
        pc := c;
      }
    }

    /** do{ p->n--; }while( p->z[p->n]!=cQuote ) */
    method DropFromQuote()
      requires QUOTE in z
      modifies this`z
      ensures z == old(z)[..LastQuote(old(z))]
    {
      var n := |z| - 1;
      while z[n] != QUOTE
        invariant 0 <= n < |z| && QUOTE in z[..n + 1] && QUOTE !in z[n + 1..]
        decreases n
      {
        assert z[..n + 1] == z[..n] + [z[n]] && z[n..] == [z[n]] + z[n + 1..];
        n := n - 1;
      }
      LastQuoteUnique(z, n);
      z := z[..n];
    }

    /** Its loop for a field that starts with `first`. */
    method ReadBare(first: byte)
      requires z == []
      modifies this`input, this`z, this`cTerm
      ensures ScanBare([first] + old(input), [], cColSep, cRowSep) == Field(Some(z), cTerm, input)
    {
      hide ScanBare;
      ghost var start := [first] + input;
      var c: int := first;
      while c != EOF && c != cColSep && c != cRowSep
        invariant c != EOF ==> 0 <= c < 256
        invariant c == EOF ==> input == []
        invariant ScanBare(if c == EOF then [] else [c] + input, z, cColSep, cRowSep) == ScanBare(start, [], cColSep, cRowSep)
        decreases |input|, c != EOF
      {
        ghost var left := input;
        BareStep(c as byte, left, z, cColSep, cRowSep);
        z := z + [c];
        c := Getc();
        assert c != EOF ==> [c] + input == left;
      }
      BareEnd(c, input, z, cColSep, cRowSep);
      if c == cRowSep && z != [] && z[|z| - 1] == CR {
        z := z[..|z| - 1];
      }
      cTerm := c;
    }
  }

  lemma {:induction false} BareStep(c: byte, rest: Bytes, z: Bytes, sep: int, row: int)
    requires c != sep && c != row
    ensures ScanBare([c] + rest, z, sep, row) == ScanBare(rest, z + [c], sep, row)
  {
    assert ([c] + rest)[1..] == rest;
  }

  lemma {:induction false} BareEnd(c: int, rest: Bytes, z: Bytes, sep: int, row: int)
    requires (c == EOF && rest == []) || 0 <= c < 256
    requires c == EOF || c == sep || c == row
    ensures ScanBare(if c == EOF then [] else [c] + rest, z, sep, row)
         == Field(Some(if c == row && z != [] && z[|z| - 1] == CR then z[..|z| - 1] else z), c, rest)
  {
    assert c != EOF ==> ([c] + rest)[1..] == rest;
  }

  lemma {:induction false} LastQuoteUnique(z: Bytes, n: nat)
    requires n < |z| && z[n] == QUOTE && QUOTE !in z[n + 1..]
    ensures QUOTE in z && LastQuote(z) == n
  {
    var k := LastQuote(z);
    assert forall j :: n < j < |z| ==> z[j] in z[n + 1..];
    assert forall j :: k < j < |z| ==> z[j] in z[k + 1..];
  }

  // -------------------------------------------------------- field round trip

  /** Reading over the doubled text of a field stores the field. */
  lemma {:induction false} ScanDoubled(f: Bytes, tail: Bytes, z: Bytes, pc: int, ppc: int, sep: int)
    returns (pc': int, ppc': int)
    requires IsSeparator(sep) && Tracked(z, pc, ppc) && pc != QUOTE && !(pc == CR && ppc == QUOTE)
    ensures pc' != QUOTE && !(pc' == CR && ppc' == QUOTE) && Tracked(z + f, pc', ppc')
    ensures ScanQuoted(Doubled(f) + tail, z, pc, ppc, sep, LF) == ScanQuoted(tail, z + f, pc', ppc', sep, LF)
  {
    hide ScanQuoted;
    if f == [] {
      assert Doubled(f) + tail == tail && z + f == z;
      pc', ppc' := pc, ppc;
    } else {
      var c, more := f[0], Doubled(f[1..]) + tail;
      assert z + [c] + f[1..] == z + f;
      var once := if c == QUOTE then [QUOTE, QUOTE] else [c];
      assert Doubled(f) + tail == once + more;
      ScanOne(c, more, z, pc, ppc, sep);
      pc', ppc' := ScanDoubled(f[1..], tail, z + [c], if c == QUOTE then 0 else c, pc, sep);
    }
  }

  /** One byte of a field, a quote written twice. */
  lemma {:induction false} ScanOne(c: byte, more: Bytes, z: Bytes, pc: int, ppc: int, sep: int)
    requires IsSeparator(sep) && Tracked(z, pc, ppc) && pc != QUOTE && !(pc == CR && ppc == QUOTE)
    ensures var pc' := if c == QUOTE then 0 else c;
      Tracked(z + [c], pc', pc)
      && ScanQuoted((if c == QUOTE then [QUOTE, QUOTE] else [c]) + more, z, pc, ppc, sep, LF)
         == ScanQuoted(more, z + [c], pc', pc, sep, LF)
  {
    if c == QUOTE {
      var twice := [QUOTE, QUOTE] + more;
      assert twice[1..] == [QUOTE] + more && twice[1..][1..] == more;
    } else {
      assert ([c] + more)[1..] == more;
    }
  }

  /** What may follow a field: the separator, a line end, and then anything. */
  predicate Follows(end: Bytes, sep: int) {
    end == [CR, LF] || end == [LF] || (|end| == 1 && end[0] == sep)
  }

  lemma {:induction false} LastQuoteAtEnd(z: Bytes, more: Bytes)
    requires QUOTE !in more
    ensures QUOTE in z + [QUOTE] + more && LastQuote(z + [QUOTE] + more) == |z|
  {
    var s := z + [QUOTE] + more;
    assert s[|z|] == QUOTE && s[|z| + 1..] == more;
    LastQuoteUnique(s, |z|);
  }

  /** The closing quote and the terminator give back the stored field. */
  lemma {:induction false} ScanClosing(f: Bytes, end: Bytes, tail: Bytes, pc: int, ppc: int, sep: int)
    requires IsSeparator(sep) && Follows(end, sep) && Tracked(f, pc, ppc) && pc != QUOTE && !(pc == CR && ppc == QUOTE)
    ensures ScanQuoted([QUOTE] + (end + tail), f, pc, ppc, sep, LF) == Field(Some(f), end[|end| - 1], tail)
  {
    var s := end + tail;
    var z := f + [QUOTE];
    assert ([QUOTE] + s)[1..] == s;
    LastQuoteAtEnd(f, []);
    assert f + [QUOTE] + [] == z && z[..|f|] == f;
    if end == [CR, LF] {
      LastQuoteAtEnd(f, [CR]);
      var t := [LF] + tail;
      assert s[1..] == t && t[1..] == tail;
      assert (z + [CR])[..|f|] == f;
      assert ScanQuoted(s, z, QUOTE, pc, sep, LF) == ScanQuoted(t, z + [CR], CR, QUOTE, sep, LF);
    } else {
      assert s[1..] == tail;
    }
  }

  lemma {:induction false} ReadQuotedField(f: Bytes, end: Bytes, tail: Bytes, sep: int)
    requires IsSeparator(sep) && Follows(end, sep)
    ensures ReadField([QUOTE] + Doubled(f) + [QUOTE] + (end + tail), sep, LF) == Field(Some(f), end[|end| - 1], tail)
  {
    var rest := [QUOTE] + (end + tail);
    var text := [QUOTE] + Doubled(f) + [QUOTE] + (end + tail);
    assert text[1..] == Doubled(f) + rest;
    var pc, ppc := ScanDoubled(f, rest, [], 0, 0, sep);
    assert [] + f == f;
    ScanClosing(f, end, tail, pc, ppc, sep);
  }

  lemma {:induction false} ScanBareField(f: Bytes, z: Bytes, end: Bytes, tail: Bytes, sep: int)
    requires IsSeparator(sep) && Follows(end, sep)
    requires forall k :: 0 <= k < |f| ==> f[k] != sep && f[k] != LF
    requires z + f != [] && (z + f)[|z + f| - 1] != CR
    ensures ScanBare(f + (end + tail), z, sep, LF) == Field(Some(z + f), end[|end| - 1], tail)
    decreases |f|
  {
    var s := f + (end + tail);
    if f == [] {
      assert s == end + tail && z + f == z;
      if end == [CR, LF] {
        assert s[1..] == [LF] + tail && s[1..][1..] == tail;
        assert (z + [CR])[..|z|] == z;
      } else {
        assert s[1..] == tail;
      }
    } else {
      assert s[1..] == f[1..] + (end + tail);
      assert z + [f[0]] + f[1..] == z + f;
      ScanBareField(f[1..], z + [f[0]], end, tail, sep);
    }
  }

  /** A written field followed by a separator or line end is read back, and leaves the rest. */
  lemma {:induction false} FieldRoundTrip(f: Bytes, end: Bytes, tail: Bytes, sep: byte)
    requires IsSeparator(sep) && Follows(end, sep)
    ensures ReadField(FieldText(f, sep) + (end + tail), sep, LF) == Field(Some(f), end[|end| - 1], tail)
  {
    if Bare(f, sep) {
      assert (f + (end + tail))[0] == f[0];
      assert [] + f == f;
      ScanBareField(f, [], end, tail, sep);
    } else {
      ReadQuotedField(f, end, tail, sep);
    }
  }

  // ------------------------------------------------------------------ tables

  /** One row as the CSV output mode writes it, after the fields before `i`. */
  function RowText(row: seq<Bytes>, sep: byte, rowSep: Bytes): (s: Bytes)
    requires row != []
  {
    if |row| == 1 then FieldText(row[0], sep) + rowSep
    else FieldText(row[0], sep) + ([sep] + RowText(row[1..], sep, rowSep))
  }

  function TableText(rows: seq<seq<Bytes>>, sep: byte, rowSep: Bytes): (s: Bytes)
    requires forall k :: 0 <= k < |rows| ==> rows[k] != []
  {
    if rows == [] then [] else RowText(rows[0], sep, rowSep) + TableText(rows[1..], sep, rowSep)
  }

  /** The columns of one row as bound to the insert statement, and where reading stopped. */
  datatype Row = Row(cells: seq<Option<Bytes>>, term: int, rest: Bytes)

  /** The column loop: `n` columns are still to be bound; a row that ends early is filled with NULL. */
  function ReadRow(s: Bytes, n: nat, sep: int, row: int): (r: Row)
    requires n > 0
    ensures |r.cells| == n && |r.rest| <= |s| && (s != [] ==> |r.rest| < |s|)
    decreases n
  {
    var f := ReadField(s, sep, row);
    if n == 1 then Row([f.text], f.term, f.rest)
    else if f.term != sep then Row([f.text] + Nulls(n - 1), f.term, f.rest)
    else
      var r := ReadRow(f.rest, n - 1, sep, row);
      Row([f.text] + r.cells, r.term, r.rest)
  }

  /** Fields beyond the last column are read and dropped. */
  function SkipExtras(s: Bytes, term: int, sep: int, row: int): (r: (int, Bytes))
    requires sep >= 0
    ensures |r.1| <= |s|
    decreases |s|, term == sep
  {
    if term != sep then (term, s)
    else
      var f := ReadField(s, sep, row);
      if s == [] then (f.term, f.rest) else SkipExtras(f.rest, f.term, sep, row)
  }

  function Import(s: Bytes, n: nat, sep: int, row: int): (rows: seq<seq<Option<Bytes>>>)
    requires n > 0 && sep >= 0
    decreases |s|
  {
    if s == [] then []
    else
      var r := ReadRow(s, n, sep, row);
      var (term, rest) := SkipExtras(r.rest, r.term, sep, row);
      [r.cells] + (if term == EOF then [] else Import(rest, n, sep, row))
  }

  function Cells(row: seq<Bytes>): (c: seq<Option<Bytes>>)
    ensures |c| == |row|
  {
    seq(|row|, i requires 0 <= i < |row| => Some(row[i]))
  }

  lemma {:induction false} RowRoundTrip(row: seq<Bytes>, tail: Bytes, sep: byte, rowSep: Bytes)
    requires row != [] && IsSeparator(sep) && (rowSep == [LF] || rowSep == [CR, LF])
    ensures ReadRow(RowText(row, sep, rowSep) + tail, |row|, sep, LF) == Row(Cells(row), LF, tail)
  {
    hide ReadField, FieldText;
    var first := FieldText(row[0], sep);
    if |row| == 1 {
      assert first + rowSep + tail == first + (rowSep + tail);
      FieldRoundTrip(row[0], rowSep, tail, sep);
    } else {
      var more := RowText(row[1..], sep, rowSep);
      assert first + ([sep] + more) + tail == first + ([sep] + (more + tail));
      FieldRoundTrip(row[0], [sep], more + tail, sep);
      RowRoundTrip(row[1..], tail, sep, rowSep);
      assert [Some(row[0])] + Cells(row[1..]) == Cells(row);
    }
  }

  lemma {:induction false} RowTextNonEmpty(row: seq<Bytes>, sep: byte, rowSep: Bytes)
    requires row != [] && rowSep != []
    ensures RowText(row, sep, rowSep) != []
  {}

  /** A row as it is bound to `n` columns: filled with NULL, or cut. */
  function Fit(row: seq<Bytes>, n: nat): (cells: seq<Option<Bytes>>)
    ensures |cells| == n
    ensures forall i :: 0 <= i < n ==> cells[i] == if i < |row| then Some(row[i]) else None
  {
    if |row| <= n then Cells(row) + Nulls(n - |row|) else Cells(row[..n])
  }

  lemma {:induction false} FitStep(row: seq<Bytes>, n: nat)
    requires row != [] && n > 0
    ensures Fit(row, n) == [Some(row[0])] + Fit(row[1..], n - 1)
  {
    if |row| <= n {
      assert Cells(row) == [Some(row[0])] + Cells(row[1..]);
    } else {
      assert row[1..][..n - 1] == row[..n][1..];
    }
  }

  /** Fields beyond the last column, up to the end of their line. */
  lemma {:induction false} ExtrasDropped(row: seq<Bytes>, tail: Bytes, sep: byte, rowSep: Bytes)
    requires row != [] && IsSeparator(sep) && (rowSep == [LF] || rowSep == [CR, LF])
    ensures SkipExtras(RowText(row, sep, rowSep) + tail, sep, sep, LF) == (LF, tail)
    decreases |row|
  {
    hide ReadField, FieldText;
    RowTextNonEmpty(row, sep, rowSep);
    var first := FieldText(row[0], sep);
    if |row| == 1 {
      assert first + rowSep + tail == first + (rowSep + tail);
      FieldRoundTrip(row[0], rowSep, tail, sep);
    } else {
      var more := RowText(row[1..], sep, rowSep);
      assert first + ([sep] + more) + tail == first + ([sep] + (more + tail));
      FieldRoundTrip(row[0], [sep], more + tail, sep);
      ExtrasDropped(row[1..], tail, sep, rowSep);
    }
  }

  /** A written row of any length, read for `n` columns: what is missing is NULL, what is too much is dropped. */
  lemma {:induction false} RowFits(row: seq<Bytes>, n: nat, tail: Bytes, sep: byte, rowSep: Bytes)
    requires row != [] && n > 0 && IsSeparator(sep) && (rowSep == [LF] || rowSep == [CR, LF])
    ensures var r := ReadRow(RowText(row, sep, rowSep) + tail, n, sep, LF);
            r.cells == Fit(row, n) && SkipExtras(r.rest, r.term, sep, LF) == (LF, tail)
    decreases |row|
  {
    hide ReadField, FieldText;
    FitStep(row, n);
    hide Fit;
    var first := FieldText(row[0], sep);
    if |row| == 1 {
      assert first + rowSep + tail == first + (rowSep + tail);
      FieldRoundTrip(row[0], rowSep, tail, sep);
      NothingFits(n - 1);
      assert row[1..] == [];
      assert [Some(row[0])] + [] == [Some(row[0])];
    } else {
      var more := RowText(row[1..], sep, rowSep);
      assert first + ([sep] + more) + tail == first + ([sep] + (more + tail));
      FieldRoundTrip(row[0], [sep], more + tail, sep);
      if n == 1 {
        ExtrasDropped(row[1..], tail, sep, rowSep);
        assert [Some(row[0])] + Fit(row[1..], 0) == [Some(row[0])];
      } else {
        RowFits(row[1..], n - 1, tail, sep, rowSep);
      }
    }
  }

  lemma {:induction false} NothingFits(n: nat)
    ensures Fit([], n) == Nulls(n)
  {}

  /**
   * A table written in CSV mode and imported again: the same fields, the same row
   * breaks, whatever bytes the fields hold; rows are filled or cut to the columns.
   */
  lemma {:induction false} TableRoundTrip(rows: seq<seq<Bytes>>, n: nat, sep: byte, rowSep: Bytes)
    requires n > 0 && IsSeparator(sep) && (rowSep == [LF] || rowSep == [CR, LF])
    requires forall k :: 0 <= k < |rows| ==> rows[k] != []
    ensures Import(TableText(rows, sep, rowSep), n, sep, LF)
         == seq(|rows|, i requires 0 <= i < |rows| => Fit(rows[i], n))
  {
    hide ReadRow, RowText, SkipExtras, Fit;
    if rows != [] {
      var tail := TableText(rows[1..], sep, rowSep);
      RowFits(rows[0], n, tail, sep, rowSep);
      RowTextNonEmpty(rows[0], sep, rowSep);
      TableRoundTrip(rows[1..], n, sep, rowSep);
    }
  }

  lemma {:induction false} FitExactly(row: seq<Bytes>)
    ensures Fit(row, |row|) == Cells(row)
  {
    assert Nulls(0) == [];
  }

  // ------------------------------------------------------- the shell's loops

  /** The CSV case of the shell's row callback, for every row. */
  method WriteTable(rows: seq<seq<Bytes>>, sep: byte, rowSep: Bytes) returns (out: Bytes)
    requires forall k :: 0 <= k < |rows| ==> rows[k] != []
    ensures out == TableText(rows, sep, rowSep)
  {
    hide RowText;
    out := [];
    var k := 0;
    assert rows[0..] == rows;
    while k < |rows|
      invariant 0 <= k <= |rows|
      invariant out + TableText(rows[k..], sep, rowSep) == TableText(rows, sep, rowSep)
    {
      assert rows[k..][1..] == rows[k + 1..];
      ghost var before := out;
      var text := WriteRow(rows[k], sep, rowSep);
      out := out + text;
      assert before + (text + TableText(rows[k + 1..], sep, rowSep)) == out + TableText(rows[k + 1..], sep, rowSep);
      k := k + 1;
    }
  }

  method WriteRow(row: seq<Bytes>, sep: byte, rowSep: Bytes) returns (out: Bytes)
    requires row != []
    ensures out == RowText(row, sep, rowSep)
  {
    hide FieldText;
    out := [];
    var i := 0;
    assert row[0..] == row;
    while i < |row|
      invariant 0 <= i <= |row|
      invariant i < |row| ==> out + RowText(row[i..], sep, rowSep) == RowText(row, sep, rowSep)
      invariant i == |row| ==> out + rowSep == RowText(row, sep, rowSep)
    {
      var field := OutputCsv(row[i], sep, i < |row| - 1);
      var rest := row[i..];
      assert rest[1..] == row[i + 1..];
      if i < |row| - 1 {
        assert out + (FieldText(row[i], sep) + ([sep] + RowText(row[i + 1..], sep, rowSep)))
            == out + field + RowText(row[i + 1..], sep, rowSep);
      } else {
        assert out + (FieldText(row[i], sep) + rowSep) == out + field + rowSep;
      }
      out := out + field;
      i := i + 1;
    }
    out := out + rowSep;
  }

  /** The column loop of .import; `ended` when the file was at its end. */
  method ReadColumns(ctx: ImportCtx, nCol: nat) returns (cells: seq<Option<Bytes>>, ended: bool)
    requires nCol > 0
    modifies ctx
    ensures ended <==> old(ctx.input) == []
    ensures ended ==> ctx.input == [] && ctx.cTerm == EOF
    ensures !ended ==> Row(cells, ctx.cTerm, ctx.input) == ReadRow(old(ctx.input), nCol, ctx.cColSep, ctx.cRowSep)
  {
    hide ReadField, ReadRow;
    ghost var whole := ReadRow(ctx.input, nCol, ctx.cColSep, ctx.cRowSep);
    cells := [];
    ended := false;
    var i := 0;
    assert [] + whole.cells == whole.cells;
    while i < nCol
      invariant 0 <= i <= nCol && |cells| == i && !ended
      invariant i == 0 ==> ctx.input == old(ctx.input)
      invariant i > 0 ==> old(ctx.input) != []
      invariant if i < nCol then
                  var r := ReadRow(ctx.input, nCol - i, ctx.cColSep, ctx.cRowSep);
                  whole == Row(cells + r.cells, r.term, r.rest)
                else whole == Row(cells, ctx.cTerm, ctx.input)
    {
      EndOfFile(ctx.input, ctx.cColSep, ctx.cRowSep);
      RowStep(ctx.input, nCol - i, ctx.cColSep, ctx.cRowSep, cells);
      var z := ctx.CsvReadOneField();
      if z.None? && i == 0 {
        return [], true;
      }
      cells := cells + [z];
      i := i + 1;
      if i < nCol && ctx.cTerm != ctx.cColSep {
        // the rest of the columns are filled with NULL
        cells := cells + Nulls(nCol - i);
        i := nCol;
      }
    }
  }

  function Nulls(n: nat): (r: seq<Option<Bytes>>)
    ensures |r| == n
  {
    seq(n, i => None)
  }

  /** One column, behind the cells `before`. */
  lemma {:induction false} RowStep(s: Bytes, n: nat, sep: int, row: int, before: seq<Option<Bytes>>)
    requires n > 0
    ensures var f, r := ReadField(s, sep, row), ReadRow(s, n, sep, row);
      var done := before + [f.text];
      if n == 1 then before + r.cells == done && r.term == f.term && r.rest == f.rest
      else if f.term != sep then before + r.cells == done + Nulls(n - 1) && r.term == f.term && r.rest == f.rest
      else var more := ReadRow(f.rest, n - 1, sep, row);
           before + r.cells == done + more.cells && r.term == more.term && r.rest == more.rest
  {
    hide ReadField;
    var f := ReadField(s, sep, row);
    if n > 1 && f.term == sep {
      var more := ReadRow(f.rest, n - 1, sep, row);
      assert before + ([f.text] + more.cells) == before + [f.text] + more.cells;
    } else if n > 1 {
      assert before + ([f.text] + Nulls(n - 1)) == before + [f.text] + Nulls(n - 1);
    }
  }

  lemma {:induction false} EndOfFile(s: Bytes, sep: int, row: int)
    ensures s == [] ==> ReadField(s, sep, row) == Field(None, EOF, [])
    ensures ReadField(s, sep, row).text.None? <==> s == []
  {}

  /** Fields beyond the last column. */
  method SkipExtraFields(ctx: ImportCtx)
    requires ctx.cColSep >= 0
    modifies ctx
    ensures (ctx.cTerm, ctx.input) == SkipExtras(old(ctx.input), old(ctx.cTerm), ctx.cColSep, ctx.cRowSep)
    ensures |ctx.input| <= |old(ctx.input)|
  {
    hide ReadField;
    ghost var skipped := SkipExtras(ctx.input, ctx.cTerm, ctx.cColSep, ctx.cRowSep);
    if ctx.cTerm == ctx.cColSep {
      while true
        invariant SkipExtras(ctx.input, ctx.cTerm, ctx.cColSep, ctx.cRowSep) == skipped
        invariant |ctx.input| <= |old(ctx.input)| && ctx.cTerm == ctx.cColSep
        decreases |ctx.input|
      {
        EndOfFile(ctx.input, ctx.cColSep, ctx.cRowSep);
        var _ := ctx.CsvReadOneField();
        if ctx.cTerm != ctx.cColSep { break; }
      }
    }
  }

  /** The row loop of .import, for CSV mode and a table of `nCol` columns. */
  method ImportTable(input: Bytes, nCol: nat, sep: byte, row: byte) returns (rows: seq<seq<Option<Bytes>>>)
    requires nCol > 0
    ensures rows == Import(input, nCol, sep, row)
  {
    hide ReadField, ReadRow, SkipExtras, Import;
    var ctx := new ImportCtx(input, sep, row);
    rows := [];
    assert [] + Import(input, nCol, sep, row) == Import(input, nCol, sep, row);
    while true
      invariant fresh(ctx) && ctx.cColSep == sep && ctx.cRowSep == row
      invariant rows + Import(ctx.input, nCol, sep, row) == Import(input, nCol, sep, row)
      decreases |ctx.input|
    {
      ImportStep(ctx.input, nCol, sep, row, rows);
      var cells, ended := ReadColumns(ctx, nCol);
      if ended { break; }
      SkipExtraFields(ctx);
      rows := rows + [cells];
      if ctx.cTerm == EOF { break; }
    }
  }

  /** One row of the import, behind the rows `before`. */
  lemma {:induction false} ImportStep(s: Bytes, n: nat, sep: int, row: int, before: seq<seq<Option<Bytes>>>)
    requires n > 0 && sep >= 0
    ensures s == [] ==> before + Import(s, n, sep, row) == before
    ensures s != [] ==>
      var r := ReadRow(s, n, sep, row);
      var (term, rest) := SkipExtras(r.rest, r.term, sep, row);
      && |rest| < |s|
      && before + Import(s, n, sep, row) == before + [r.cells] + (if term == EOF then [] else Import(rest, n, sep, row))
  {
    hide ReadRow, SkipExtras;
    if s != [] {
      var r := ReadRow(s, n, sep, row);
      var (term, rest) := SkipExtras(r.rest, r.term, sep, row);
      var more := if term == EOF then [] else Import(rest, n, sep, row);
      assert before + ([r.cells] + more) == before + [r.cells] + more;
    }
  }

  /** Out and back through both programs. */
  method ExportImport(rows: seq<seq<Bytes>>, n: nat, sep: byte, rowSep: Bytes) returns (back: seq<seq<Option<Bytes>>>)
    requires n > 0 && IsSeparator(sep) && (rowSep == [LF] || rowSep == [CR, LF])
    requires forall k :: 0 <= k < |rows| ==> rows[k] != []
    ensures |back| == |rows| && forall i :: 0 <= i < |rows| ==> back[i] == Fit(rows[i], n)
    ensures forall i :: 0 <= i < |rows| && |rows[i]| == n ==> back[i] == Cells(rows[i])
  {
    var text := WriteTable(rows, sep, rowSep);
    forall i | 0 <= i < |rows| && |rows[i]| == n ensures Fit(rows[i], n) == Cells(rows[i]) {
      FitExactly(rows[i]);
    }
    hide Fit;
    TableRoundTrip(rows, n, sep, rowSep);
    // the import command replaces a CRLF row separator by LF
    back := ImportTable(text, n, sep, LF);
  }
}

/**
 * The header HttpResponse::makeStream writes for a file, and the header as a client
 * reads it: line by line up to the blank line, knowing only the names.
 */
module ResponseHead {
  import opened Common
  import opened Inet
  import opened Chars
  import opened Range

  const VERSION := "HTTP/1.1 "
  const LENGTH := "Content-Length: "
  const RANGE := "Content-Range: bytes "

  /** The parts of the header that do not depend on the plan: title of the status, lines at the top and at the end. */
  datatype Others = Others(title: string, top: seq<string>, end: seq<string>) {
    predicate Neutral() {
      '\r' !in title && AllNeutral(top) && AllNeutral(end)
    }
  }

  /** A line that says nothing about status, length or range. */
  predicate NeutralLine(line: string) {
    Writable(line) && !(VERSION <= line) && !(LENGTH <= line) && !(RANGE <= line)
  }

  predicate AllNeutral(lines: seq<string>) {
    forall k :: 0 <= k < |lines| ==> NeutralLine(lines[k])
  }

  predicate Writable(line: string) {
    line != "" && '\r' !in line
  }

  // ------------------------------------------------------------------ writing

  /** The three lines of the sorted header list stand between the others. */
  function HeadLines(p: Plan, fileSize: uint64, o: Others): (lines: seq<string>) {
    [VERSION + Dec(p.status) + " " + o.title] + o.top
    + (["Accept-Ranges: bytes", LENGTH + Dec(p.length)] + RangeLines(p, fileSize)) + o.end
  }

  function RangeLines(p: Plan, fileSize: uint64): (lines: seq<string>) {
    if p.ranged then [RANGE + SpanText(p.start, p.end, fileSize)] else []
  }

  function SpanText(first: nat, last: nat, size: nat): (s: string) {
    Dec(first) + ['-'] + (Dec(last) + ['/'] + Dec(size))
  }

  function Joined(lines: seq<string>): (s: string) {
    if lines == [] then "" else lines[0] + "\r\n" + Joined(lines[1..])
  }

  /** HttpResponse::makeStream. */
  function Head(p: Plan, fileSize: uint64, o: Others): (h: string) {
    Joined(HeadLines(p, fileSize, o)) + "\r\n"
  }

  // ------------------------------------------------------------------ reading

  datatype Span = Span(first: nat, last: nat, size: nat)

  /** What a client knows: status, announced length and range, and the bytes behind the blank line. */
  datatype Seen = Seen(status: Option<nat>, length: Option<nat>, range: Option<Span>, body: string)

  const NOTHING := Seen(None, None, None, "")

  /** The part of `s` behind the first `c`. */
  function Behind(s: string, c: char): (r: string) {
    if s == "" then "" else if s[0] == c then s[1..] else Behind(s[1..], c)
  }

  function ReadSpan(s: string): (r: Span) {
    var t := Behind(s, '-');
    Span(Digits(s, 0), Digits(t, 0), Digits(Behind(t, '/'), 0))
  }

  function Notice(line: string, seen: Seen): (r: Seen) {
    if VERSION <= line then seen.(status := Some(Digits(line[|VERSION|..], 0)))
    else if LENGTH <= line then seen.(length := Some(Digits(line[|LENGTH|..], 0)))
    else if RANGE <= line then seen.(range := Some(ReadSpan(line[|RANGE|..])))
    else seen
  }

  /** Reads a response; without a blank line there is no body yet. */
  function ReadResponse(text: string, seen: Seen): (r: Seen)
    decreases |text|
  {
    var k := FindCrlf(text);
    if k == |text| then seen
    else if k == 0 then seen.(body := text[2..])
    else ReadResponse(text[k + 2..], Notice(text[..k], seen))
  }

  // ------------------------------------------------- reading what was written

  function NoticeAll(lines: seq<string>, seen: Seen): (r: Seen)
    decreases |lines|
  {
    if lines == [] then seen else NoticeAll(lines[1..], Notice(lines[0], seen))
  }

  /** A client sees the lines one by one, and then the body. */
  lemma {:induction false} ReadJoined(lines: seq<string>, body: string, seen: Seen)
    requires forall k :: 0 <= k < |lines| ==> Writable(lines[k])
    ensures ReadResponse(Joined(lines) + "\r\n" + body, seen) == NoticeAll(lines, seen).(body := body)
    decreases |lines|
  {
    hide FindCrlf, Notice;
    if lines == [] {
      CrlfAt("", body);
      assert "" + "\r\n" + body == "\r\n" + body && ("\r\n" + body)[2..] == body;
    } else {
      var rest := Joined(lines[1..]) + "\r\n" + body;
      assert Writable(lines[0]);
      CrlfAt(lines[0], rest);
      var text := lines[0] + "\r\n" + rest;
      assert Joined(lines) + "\r\n" + body == text;
      assert text[..|lines[0]|] == lines[0] && text[|lines[0]| + 2..] == rest;
      ReadJoined(lines[1..], body, Notice(lines[0], seen));
      ReadLine(lines[0], rest, seen);
    }
  }

  lemma {:induction false} ReadLine(line: string, rest: string, seen: Seen)
    requires Writable(line)
    ensures ReadResponse(line + "\r\n" + rest, seen) == ReadResponse(rest, Notice(line, seen))
  {
    hide FindCrlf, Notice;
    var text := line + "\r\n" + rest;
    CrlfAt(line, rest);
    assert text[..|line|] == line && text[|line| + 2..] == rest;
  }

  lemma {:induction false} NoticeAppend(a: seq<string>, b: seq<string>, seen: Seen)
    ensures NoticeAll(a + b, seen) == NoticeAll(b, NoticeAll(a, seen))
    decreases |a|
  {
    hide Notice;
    if a == [] {
      assert a + b == b;
    } else {
      assert (a + b)[1..] == a[1..] + b;
      NoticeAppend(a[1..], b, Notice(a[0], seen));
    }
  }

  lemma {:induction false} NeutralSaysNothing(lines: seq<string>, seen: Seen)
    requires AllNeutral(lines)
    ensures NoticeAll(lines, seen) == seen
    decreases |lines|
  {
    if lines != [] {
      assert NeutralLine(lines[0]);
      NeutralSaysNothing(lines[1..], seen);
    }
  }

  /** A number ends where something else begins. */
  lemma {:induction false} DigitsOf(n: nat, rest: string)
    requires rest == "" || !IsDigit(rest[0])
    ensures Digits(Dec(n) + rest, 0) == n
  {
    DigitsDecTail(n, rest);
  }

  lemma {:induction false} BehindAt(s: string, c: char, t: string)
    requires c !in s
    ensures Behind(s + [c] + t, c) == t
  {
    if s != "" {
      assert (s + [c] + t)[1..] == s[1..] + [c] + t && (s + [c] + t)[0] == s[0];
      BehindAt(s[1..], c, t);
    }
  }

  lemma {:induction false} DecHasOnlyDigits(n: nat, c: char)
    requires !IsDigit(c)
    ensures c !in Dec(n)
  {
    DecIsDigits(n);
  }

  lemma {:induction false} SpanRead(first: nat, last: nat, size: nat)
    ensures ReadSpan(SpanText(first, last, size)) == Span(first, last, size)
  {
    hide Behind, Digits, Dec;
    var t := Dec(last) + ['/'] + Dec(size);
    var s := Dec(first) + ['-'] + t;
    DecHasOnlyDigits(first, '-');
    DecHasOnlyDigits(last, '/');
    BehindAt(Dec(first), '-', t);
    BehindAt(Dec(last), '/', Dec(size));
    assert s == Dec(first) + (['-'] + t) && t == Dec(last) + (['/'] + Dec(size)) && Dec(size) + "" == Dec(size);
    DigitsOf(first, ['-'] + t);
    DigitsOf(last, ['/'] + Dec(size));
    DigitsOf(size, "");
  }

  lemma {:induction false} StatusNoticed(status: nat, title: string, seen: Seen)
    ensures Notice(VERSION + Dec(status) + " " + title, seen) == seen.(status := Some(status))
  {
    hide Digits, Dec;
    var line := VERSION + Dec(status) + " " + title;
    assert line[|VERSION|..] == Dec(status) + (" " + title);
    DigitsOf(status, " " + title);
  }

  lemma {:induction false} LengthNoticed(length: nat, seen: Seen)
    ensures Notice(LENGTH + Dec(length), seen) == seen.(length := Some(length))
  {
    hide Digits, Dec;
    var line := LENGTH + Dec(length);
    assert line[|LENGTH|..] == Dec(length) && Dec(length) + "" == Dec(length);
    assert line[0] == 'C';
    DigitsOf(length, "");
  }

  lemma {:induction false} RangeNoticed(first: nat, last: nat, size: nat, seen: Seen)
    ensures Notice(RANGE + SpanText(first, last, size), seen) == seen.(range := Some(Span(first, last, size)))
  {
    hide ReadSpan, SpanText;
    var line := RANGE + SpanText(first, last, size);
    assert line[|RANGE|..] == SpanText(first, last, size);
    assert line[0] == 'C' && line[8] == 'R';
    SpanRead(first, last, size);
  }

  /** The three lines of the header list, seen by a client. */
  lemma {:induction false} ListNoticed(p: Plan, fileSize: uint64, seen: Seen)
    ensures NoticeAll(["Accept-Ranges: bytes", LENGTH + Dec(p.length)] + RangeLines(p, fileSize), seen)
         == seen.(length := Some(p.length),
                  range := if p.ranged then Some(Span(p.start, p.end, fileSize)) else seen.range)
  {
    hide Notice, Dec, SpanText;
    var two := ["Accept-Ranges: bytes", LENGTH + Dec(p.length)];
    NoticeAppend(two, RangeLines(p, fileSize), seen);
    AcceptSaysNothing(seen);
    LengthNoticed(p.length, seen);
    var s' := seen.(length := Some(p.length));
    assert two[1..] == [two[1]] && two[1..][1..] == [];
    assert NoticeAll(two[1..], seen) == s';
    if p.ranged {
      RangeNoticed(p.start, p.end, fileSize, s');
      assert RangeLines(p, fileSize)[1..] == [];
    }
  }

  lemma {:induction false} AcceptSaysNothing(seen: Seen)
    ensures Notice("Accept-Ranges: bytes", seen) == seen
  {
    assert "Accept-Ranges: bytes"[0] == 'A';
  }

  lemma {:induction false} LinesWritable(p: Plan, fileSize: uint64, o: Others)
    requires o.Neutral()
    ensures forall k :: 0 <= k < |HeadLines(p, fileSize, o)| ==> Writable(HeadLines(p, fileSize, o)[k])
  {
    hide Dec;
    DecHasOnlyDigits(p.status, '\r');
    DecHasOnlyDigits(p.length, '\r');
    DecHasOnlyDigits(p.start, '\r');
    DecHasOnlyDigits(p.end, '\r');
    DecHasOnlyDigits(fileSize, '\r');
    assert forall k :: 0 <= k < |o.top| ==> NeutralLine(o.top[k]);
    assert forall k :: 0 <= k < |o.end| ==> NeutralLine(o.end[k]);
  }

  /** A client reads from header and body what the plan says, and gets the body back. */
  lemma {:induction false} HeadRead(p: Plan, fileSize: uint64, o: Others, body: string)
    requires o.Neutral()
    ensures ReadResponse(Head(p, fileSize, o) + body, NOTHING)
         == Seen(Some(p.status), Some(p.length), if p.ranged then Some(Span(p.start, p.end, fileSize)) else None, body)
  {
    hide Joined, ReadResponse, Dec, Notice, RangeLines, AllNeutral;
    var lines := HeadLines(p, fileSize, o);
    LinesWritable(p, fileSize, o);
    ReadJoined(lines, body, NOTHING);
    var status := VERSION + Dec(p.status) + " " + o.title;
    var list := ["Accept-Ranges: bytes", LENGTH + Dec(p.length)] + RangeLines(p, fileSize);
    assert lines == [status] + (o.top + (list + o.end));
    var s := NOTHING.(status := Some(p.status));
    StatusNoticed(p.status, o.title, NOTHING);
    assert NoticeAll(lines, NOTHING) == NoticeAll(o.top + (list + o.end), s);
    NoticeAppend(o.top, list + o.end, s);
    NeutralSaysNothing(o.top, s);
    NoticeAppend(list, o.end, s);
    ListNoticed(p, fileSize, s);
    NeutralSaysNothing(o.end, NoticeAll(list, s));
  }
}

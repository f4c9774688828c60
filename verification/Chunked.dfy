/**
 * The chunked transfer decoder HttpChunked::parseChunkedBlocks and its block
 * re-framer procChunkedBlocks (section 4.1 of RFC 7230).  A `char` stands for one byte.
 */
module Chunked {
  import opened Common
  import opened Reblock
  import opened Range
  import opened Chars

  // ------------------------------------------------------------------ strtol

  /** Value of the hexadecimal digits `s` starts with, appended to `acc`. */
  function HexDigits(s: string, acc: nat): (n: nat) {
    if s == "" || !IsHex(s[0]) then acc else HexDigits(s[1..], acc * 16 + HexOf(s[0]))
  }

  function HexNumber(s: string): (n: nat) {
    if |s| >= 3 && s[0] == '0' && (s[1] == 'x' || s[1] == 'X') && IsHex(s[2]) then HexDigits(s[2..], 0)
    else HexDigits(s, 0)
  }

  /** ::strtol(s, NULL, 16): blanks (line ends among them), a sign, an optional 0x, digits. */
  function Strtol16(s: string): (r: int)
    decreases |s|
  {
    if s == "" then 0
    else if IsSpace(s[0]) then Strtol16(s[1..])
    else if s[0] == '-' then Saturate(0 - (HexNumber(s[1..]) as int))
    else if s[0] == '+' then Saturate(HexNumber(s[1..]))
    else Saturate(HexNumber(s))
  }

  // -------------------------------------------------------------------- scan

  /** Why a scan stopped: more bytes needed, DFW_T_CHUNKED_END, DFW_E_HTTP_CHUNKED, or a length past the buffer. */
  datatype Stop = More | End | BadSize | Overrun

  /** Payloads handed on, bytes consumed, reason for stopping. */
  datatype Scanned = Scanned(payloads: seq<string>, used: nat, stop: Stop)

  /** What one turn of the loop does with the bytes at `buf`. */
  datatype Turn = Halt(stop: Stop) | Chunk(at: nat, size: nat)

  function TurnOf(text: string): (t: Turn)
    ensures t.Chunk? ==> 2 <= t.at && t.at + t.size + 2 <= |text|
  {
    var k := FindCrlf(text);
    if k == |text| then Halt(More)
    else
      var val := Strtol16(text);
      if val == 0 && text[0] == '0' then Halt(End)
      else if k + 2 > 6 then Halt(BadSize)
      else if U64(k + 2 + U64(val) + 2) > |text| then Halt(More)
      else if k + 2 + U64(val) + 2 >= TWO_64 then Halt(Overrun)  // the sum wrapped around
      else Chunk(k + 2, U64(val))
  }

  function Scan(text: string): (r: Scanned)
    ensures r.used <= |text|
    decreases |text|
  {
    match TurnOf(text)
    case Halt(stop) => Scanned([], 0, stop)
    case Chunk(at, size) =>
      var rest := Scan(text[at + size + 2..]);
      Scanned([text[at..at + size]] + rest.payloads, at + size + 2 + rest.used, rest.stop)
  }

  // ------------------------------------------------------------------ decoder

  /** HttpChunked with its round and connection; `delivered` and `finished` are the listener's view. */
  class HttpChunked {
    const blockSize: nat
    var chunkedBuffer: string     // m_sChunkedBuffer
    var recvContentLength: nat
    var delivered: seq<string>
    var finished: bool            // onResponse(NULL, 0) was called

    ghost predicate Valid()
      reads this
    {
      && blockSize > 0
      && |chunkedBuffer| < blockSize
      && recvContentLength == |Flatten(delivered)| + |chunkedBuffer|
    }

    constructor (blockSize: nat)
      requires blockSize > 0
      ensures Valid() && this.blockSize == blockSize
      ensures chunkedBuffer == "" && delivered == [] && !finished
    {
      this.blockSize := blockSize;
      chunkedBuffer, recvContentLength, delivered, finished := "", 0, [], false;
    }

    /** procChunkedBlocks with its callbacks succeeding. */
    method ProcChunkedBlocks(buffer: string, isended: bool)
      requires Valid() && |buffer| + 2 * blockSize < TWO_64
      requires isended ==> buffer == ""
      modifies this
      ensures Valid()
      ensures var r := Feed(blockSize, old(chunkedBuffer), buffer);
              if isended then delivered == old(delivered) + (r.blocks + [r.pending]) && chunkedBuffer == "" && finished
              else delivered == old(delivered) + r.blocks && chunkedBuffer == r.pending && finished == old(finished)
    {
      recvContentLength := recvContentLength + |buffer|;
      ghost var blocks := FillBlocks(buffer, isended);
      if isended { finished := true; }
      CutConserves(blockSize, old(chunkedBuffer), buffer, isended);
      FeedConserves(blockSize, old(chunkedBuffer), buffer);
      FlattenAppend(old(delivered), blocks);
      SameTotal(old(Flatten(delivered)), Flatten(blocks), chunkedBuffer, old(chunkedBuffer), buffer);
    }

    /** The loop of procChunkedBlocks, up to the extra end callback. */
    method FillBlocks(buffer: string, isended: bool) returns (ghost blocks: seq<string>)
      requires blockSize > 0 && |chunkedBuffer| <= blockSize && |buffer| + 2 * blockSize < TWO_64
      requires isended ==> buffer == ""
      modifies this`chunkedBuffer, this`delivered
      ensures Cut(blockSize, old(chunkedBuffer), buffer, isended) == Framed(blocks, chunkedBuffer)
      ensures delivered == old(delivered) + blocks
    {
      hide Cut, CutAfter;
      var b := blockSize;
      var offset: nat, size: nat := 0, |buffer|;
      blocks := [];
      assert buffer[0..] == buffer;
      while true
        invariant offset + size == |buffer|
        invariant delivered == old(delivered) + blocks
        invariant |chunkedBuffer| <= b
        invariant CutAfter(b, blocks, chunkedBuffer, buffer[offset..], isended)
               == Cut(b, old(chunkedBuffer), buffer, isended)
        decreases size, |chunkedBuffer|
      {
        var room := Room(b, |chunkedBuffer|);
        if room > size {
          CutShort(b, blocks, chunkedBuffer, buffer[offset..], isended);
          if isended {
            delivered := delivered + [chunkedBuffer];
            blocks := blocks + [chunkedBuffer];
            chunkedBuffer := "";
          } else {
            chunkedBuffer := chunkedBuffer + buffer[offset..offset + size];
          }
          return;
        }
        CutFull(b, blocks, chunkedBuffer, buffer[offset..], isended);
        assert buffer[offset..][room..] == buffer[offset + room..];
        assert buffer[offset..][..room] == buffer[offset..offset + room];
        if room > 0 {
          chunkedBuffer := chunkedBuffer + buffer[offset..offset + room];
        }
        delivered := delivered + [chunkedBuffer];
        blocks := blocks + [chunkedBuffer];
        chunkedBuffer := "";
        offset := offset + room;
        size := size - room;
      }
    }

    /** procChunkedBlocks on a payload that follows the payloads `done`. */
    method HandOn(payload: string, ghost before: seq<string>, ghost pending: string, ghost done: seq<string>)
      requires Valid() && |payload| + 2 * blockSize < TWO_64
      requires Given(blockSize, before, pending, Flatten(done), false) == (delivered, chunkedBuffer)
      modifies this
      ensures Valid() && finished == old(finished)
      ensures Given(blockSize, before, pending, Flatten(done + [payload]), false) == (delivered, chunkedBuffer)
    {
      GivenNext(blockSize, before, pending, done, payload);
      ProcChunkedBlocks(payload, false);
    }

    /** The final flush after the payloads `done`. */
    method HandEnd(ghost before: seq<string>, ghost pending: string, ghost done: seq<string>)
      requires Valid() && 2 * blockSize < TWO_64
      requires Given(blockSize, before, pending, Flatten(done), false) == (delivered, chunkedBuffer)
      modifies this
      ensures Valid() && finished
      ensures Given(blockSize, before, pending, Flatten(done), true) == (delivered, chunkedBuffer)
    {
      GivenEnd(blockSize, before, pending, Flatten(done));
      ProcChunkedBlocks("", true);
    }

    /** The tests of one turn, on the `left` bytes at `at`. */
    static method ReadSize(buf: array<char>, at: nat, left: nat) returns (t: Turn)
      requires at + left <= buf.Length
      ensures t == TurnOf(buf[at..at + left])
    {
      if left == 0 { return Halt(More); }
      var line := FindCrlf(buf[at..at + left]);
      if line == left { return Halt(More); }
      var val := Strtol16(buf[at..at + left]);
      if val == 0 && buf[at] == '0' { return Halt(End); }
      var len := line + 2;
      if len > 6 { return Halt(BadSize); }
      var savelen := U64(len + U64(val) + 2);
      if savelen > left { return Halt(More); }
      return if len + U64(val) + 2 >= TWO_64 then Halt(Overrun) else Chunk(len, U64(val));
    }

    /**
     * parseChunkedBlocks on the first `tsize` bytes of `buf`.  The bytes not consumed are
     * moved to the front, as memmove does, unless the scan ended or failed.
     */
    method ParseChunkedBlocks(buf: array<char>, tsize: nat) returns (osize: nat, stop: Stop)
      requires Valid() && tsize <= buf.Length && buf.Length + 2 * blockSize < TWO_64
      modifies this, buf
      ensures Valid()
      ensures stop == Scan(old(buf[..tsize])).stop
      ensures stop == More ==> osize == Scan(old(buf[..tsize])).used
                               && buf[..tsize - osize] == old(buf[osize..tsize])
      ensures Given(blockSize, old(delivered), old(chunkedBuffer), Flatten(Scan(old(buf[..tsize])).payloads), stop == End)
           == (delivered, chunkedBuffer)
      ensures finished == (old(finished) || stop == End)
    {
      hide Given, Scan;
      osize, stop := TakeChunks(buf, tsize);
      if stop == More {
        var left := tsize - osize;
        forall k | 0 <= k < left { buf[k] := buf[osize + k]; }
      }
    }

    /** The loop of parseChunkedBlocks, before the memmove. */
    method TakeChunks(buf: array<char>, tsize: nat) returns (osize: nat, stop: Stop)
      requires Valid() && tsize <= buf.Length && buf.Length + 2 * blockSize < TWO_64
      modifies this
      ensures Valid() && osize <= tsize
      ensures stop == Scan(buf[..tsize]).stop && osize == Scan(buf[..tsize]).used
      ensures Given(blockSize, old(delivered), old(chunkedBuffer), Flatten(Scan(buf[..tsize]).payloads), stop == End)
           == (delivered, chunkedBuffer)
      ensures finished == (old(finished) || stop == End)
    {
      hide Given, Flatten, Scan, ScanAfter, TurnOf;
      var at: nat, left: nat := 0, tsize;
      ghost var text := buf[..tsize];
      ghost var done: seq<string> := [];
      ghost var before, pending := delivered, chunkedBuffer;
      ScanStart(text);
      GivenStart(blockSize, delivered, chunkedBuffer);
      while true
        invariant at + left == tsize
        invariant Valid() && finished == old(finished)
        invariant ScanAfter(done, at, text) == Scan(text)
        invariant Given(blockSize, before, pending, Flatten(done), false) == (delivered, chunkedBuffer)
        decreases left
      {
        var turn := ReadSize(buf, at, left);
        SliceOfStart(buf, tsize, at);
        match turn {
          case Halt(why) =>
            ScanHalt(done, at, text);
            if why == End {
              HandEnd(before, pending, done);
            }
            return at, why;
          case Chunk(len, val) =>
            ghost var payload := text[at..][len..len + val];
            SliceOfSlice(buf, tsize, at, len, val);
            HandOn(buf[at + len..at + len + val], before, pending, done);
            ScanNext(done, at, text);
            done := done + [payload];
            at, left := at + len + val + 2, left - (len + val + 2);
        }
      }
    }
  }

  lemma {:induction false} SliceOfStart(buf: array<char>, n: nat, at: nat)
    requires at <= n <= buf.Length
    ensures buf[..n][at..] == buf[at..n]
  {}

  lemma {:induction false} SliceOfSlice(buf: array<char>, n: nat, at: nat, len: nat, val: nat)
    requires at + len + val <= n <= buf.Length
    ensures buf[..n][at..][len..len + val] == buf[at + len..at + len + val]
  {
    var text, p := buf[..n], buf[at + len..at + len + val];
    assert |p| == val && forall k :: 0 <= k < val ==> p[k] == buf[at + len + k] == text[at + len + k];
    assert text[at..][len..len + val] == p;
  }

  // ------------------------------------------------------- delivered so far

  /** The listener's blocks and the pending bytes after `data`, and after the end when `ended`. */
  function Given(b: nat, before: seq<string>, pending: string, data: string, ended: bool): (r: (seq<string>, string))
    requires b > 0
  {
    var f := Feed(b, pending, data);
    if ended then (before + (f.blocks + [f.pending]), "") else (before + f.blocks, f.pending)
  }

  lemma {:induction false} GivenStart(b: nat, before: seq<string>, pending: string)
    requires |pending| < b
    ensures Given(b, before, pending, Flatten([]), false) == (before, pending)
  {
    assert pending + "" == pending && before + [] == before;
  }

  lemma {:induction false} GivenNext(b: nat, before: seq<string>, pending: string, done: seq<string>, payload: string)
    requires b > 0
    ensures var (d, p) := Given(b, before, pending, Flatten(done), false);
            Given(b, before, pending, Flatten(done + [payload]), false)
            == (d + Feed(b, p, payload).blocks, Feed(b, p, payload).pending)
  {
    FlattenOne(done, payload);
    FeedAppend(b, pending, Flatten(done), payload);
    var f := Feed(b, pending, Flatten(done));
    var g := Feed(b, f.pending, payload);
    assert before + (f.blocks + g.blocks) == before + f.blocks + g.blocks;
  }

  lemma {:induction false} GivenEnd(b: nat, before: seq<string>, pending: string, data: string)
    requires b > 0
    ensures var (d, p) := Given(b, before, pending, data, false);
            Given(b, before, pending, data, true)
            == (d + (Feed(b, p, "").blocks + [Feed(b, p, "").pending]), "")
  {
    FeedConserves(b, pending, data);
    var f := Feed(b, pending, data);
    assert f.pending + "" == f.pending;
    assert Feed(b, f.pending, "") == Framed([], f.pending);
    assert before + (f.blocks + [f.pending]) == before + f.blocks + ([] + [f.pending]);
  }

  /** The scan of the whole text when its first `at` bytes gave the payloads `done`. */
  ghost function ScanAfter(done: seq<string>, at: nat, text: string): (r: Scanned)
    requires at <= |text|
  {
    var rest := Scan(text[at..]);
    Scanned(done + rest.payloads, at + rest.used, rest.stop)
  }

  lemma {:induction false} ScanStart(text: string)
    ensures ScanAfter([], 0, text) == Scan(text)
  {
    assert text[0..] == text && [] + Scan(text).payloads == Scan(text).payloads;
  }

  lemma {:induction false} ScanHalt(done: seq<string>, at: nat, text: string)
    requires at <= |text| && TurnOf(text[at..]).Halt?
    ensures ScanAfter(done, at, text) == Scanned(done, at, TurnOf(text[at..]).stop)
  {
    assert done + [] == done;
  }

  lemma {:induction false} ScanNext(done: seq<string>, at: nat, text: string)
    requires at <= |text| && TurnOf(text[at..]).Chunk?
    ensures var t := TurnOf(text[at..]);
            ScanAfter(done + [text[at..][t.at..t.at + t.size]], at + t.at + t.size + 2, text) == ScanAfter(done, at, text)
  {
    hide TurnOf;
    var t := TurnOf(text[at..]);
    var next := at + t.at + t.size + 2;
    ScanTurn(text[at..]);
    assert text[at..][t.at + t.size + 2..] == text[next..];
    Associate(done, [text[at..][t.at..t.at + t.size]], Scan(text[next..]).payloads);
    hide Scan;
  }

  lemma {:induction false} ScanTurn(text: string)
    requires TurnOf(text).Chunk?
    ensures var t := TurnOf(text);
      var rest := Scan(text[t.at + t.size + 2..]);
      Scan(text) == Scanned([text[t.at..t.at + t.size]] + rest.payloads, t.at + t.size + 2 + rest.used, rest.stop)
  {
    hide TurnOf;
  }

  lemma {:induction false} Associate(a: seq<string>, b: seq<string>, c: seq<string>)
    ensures a + (b + c) == a + b + c
  {}

  // ------------------------------------------------------ fragmentation

  /** The size line `text` starts with, if complete, is not blank. */
  ghost predicate SolidLine(text: string) {
    var k := FindCrlf(text);
    k < |text| ==> exists j :: 0 <= j < k && !IsSpace(text[j])
  }

  /** No size line the scan reads is blank.  (strtol would read past the end of a blank one.) */
  ghost predicate SolidLines(text: string)
    decreases |text|
  {
    SolidLine(text)
    && match TurnOf(text)
       case Halt(_) => true
       case Chunk(at, size) => SolidLines(text[at + size + 2..])
  }

  lemma {:induction false} HexDigitsStable(s: string, q: string, acc: nat, k: nat)
    requires k < |s| && !IsHex(s[k])
    ensures HexDigits(s + q, acc) == HexDigits(s, acc)
  {
    if IsHex(s[0]) {
      assert (s + q)[1..] == s[1..] + q;
      HexDigitsStable(s[1..], q, acc * 16 + HexOf(s[0]), k - 1);
    }
  }

  lemma {:induction false} HexNumberStable(s: string, q: string, k: nat)
    requires k < |s| && s[k] == '\r'
    ensures HexNumber(s + q) == HexNumber(s)
  {
    HexDigitsStable(s, q, 0, k);
    if k >= 2 {
      assert (s + q)[2..] == s[2..] + q;
      HexDigitsStable(s[2..], q, 0, k - 2);
    }
  }

  /** strtol does not look past a carriage return that comes after a non-blank. */
  lemma {:induction false} StrtolStable(s: string, q: string, j: nat, k: nat)
    requires j < k < |s| && !IsSpace(s[j]) && s[k] == '\r'
    ensures Strtol16(s + q) == Strtol16(s)
  {
    assert (s + q)[1..] == s[1..] + q;
    if IsSpace(s[0]) {
      StrtolStable(s[1..], q, j - 1, k - 1);
    } else if s[0] == '-' || s[0] == '+' {
      HexNumberStable(s[1..], q, k - 1);
    } else {
      HexNumberStable(s, q, k);
    }
  }

  /** Behind a line that is not blank, a turn that did something does the same when more bytes follow. */
  lemma {:induction false} SolidTurn(s: string, q: string)
    requires SolidLine(s + q)
    ensures TurnOf(s) != Halt(More) ==> TurnOf(s + q) == TurnOf(s)
  {
    hide FindCrlf, Strtol16;
    var k := FindCrlf(s);
    FindCrlfStable(s, q);
    if k < |s| {
      var j :| 0 <= j < k && !IsSpace((s + q)[j]);
      assert (s + q)[j] == s[j];
      StrtolStable(s, q, j, k);
      assert (s + q)[0] == s[0];
    }
  }

  /** On a part of the bytes the loop waits, or it does what it does on all of them. */
  ghost predicate Steady(r: string) {
    forall n :: 0 <= n <= |r| ==> TurnOf(r[..n]) == Halt(More) || TurnOf(r[..n]) == TurnOf(r)
  }

  /** So it is wherever the scan gets to. */
  ghost predicate SteadyScan(text: string)
    decreases |text|
  {
    Steady(text)
    && match TurnOf(text)
       case Halt(_) => true
       case Chunk(at, size) => SteadyScan(text[at + size + 2..])
  }

  lemma {:induction false} SolidIsSteady(r: string)
    requires SolidLine(r)
    ensures Steady(r)
  {
    hide TurnOf, SolidLine;
    forall n | 0 <= n <= |r| ensures TurnOf(r[..n]) == Halt(More) || TurnOf(r[..n]) == TurnOf(r) {
      assert r[..n] + r[n..] == r;
      SolidTurn(r[..n], r[n..]);
    }
  }

  /** Streams without a blank size line are steady. */
  lemma {:induction false} SolidLinesSteady(text: string)
    requires SolidLines(text)
    ensures SteadyScan(text)
    decreases |text|
  {
    hide TurnOf, SolidLine, Steady;
    SolidIsSteady(text);
    match TurnOf(text)
    case Halt(_) =>
    case Chunk(at, size) => SolidLinesSteady(text[at + size + 2..]);
  }

  /** A turn that did something does the same when more bytes follow. */
  lemma {:induction false} TurnStable(s: string, q: string)
    requires Steady(s + q)
    ensures TurnOf(s) != Halt(More) ==> TurnOf(s + q) == TurnOf(s)
  {
    hide TurnOf;
    assert (s + q)[..|s|] == s;
  }

  /** The scan of `s + q`, once the scan of `s` is known. */
  function Resume(s: string, q: string): (r: Scanned) {
    var a := Scan(s);
    if a.stop != More then a
    else
      var b := Scan(s[a.used..] + q);
      Scanned(a.payloads + b.payloads, a.used + b.used, b.stop)
  }

  /** Scanning in two goes, keeping the leftover, is scanning at once. */
  lemma {:induction false} ScanExtend(s: string, q: string)
    requires SteadyScan(s + q)
    ensures Scan(s + q) == Resume(s, q)
    ensures Scan(s).stop == More ==> SteadyScan(s[Scan(s).used..] + q)
    decreases |s|
  {
    hide TurnOf, FindCrlf, Steady;
    TurnStable(s, q);
    match TurnOf(s)
    case Halt(stop) =>
      if stop == More {
        assert s[0..] == s;
        assert [] + Scan(s + q).payloads == Scan(s + q).payloads;
      }
    case Chunk(at, size) =>
      var n := at + size + 2;
      var rest := s[n..];
      assert (s + q)[n..] == rest + q;
      assert (s + q)[at..at + size] == s[at..at + size];
      ScanExtend(rest, q);
      ResumeChunk(s, q, at, size);
  }

  lemma {:induction false} ResumeChunk(s: string, q: string, at: nat, size: nat)
    requires TurnOf(s) == Chunk(at, size)
    ensures var rest := Resume(s[at + size + 2..], q);
            Resume(s, q) == Scanned([s[at..at + size]] + rest.payloads, at + size + 2 + rest.used, rest.stop)
    ensures s[Scan(s).used..] == s[at + size + 2..][Scan(s[at + size + 2..]).used..]
  {
    hide TurnOf;
    var n := at + size + 2;
    var a := Scan(s[n..]);
    assert s[n..][a.used..] == s[n + a.used..];
    var one := [s[at..at + size]];
    var b := Scan(s[n + a.used..] + q);
    assert one + (a.payloads + b.payloads) == one + a.payloads + b.payloads;
  }

  /** After a scan that wants more, its leftover alone yields nothing. */
  lemma {:induction false} LeftoverIsStuck(s: string)
    requires Scan(s).stop == More
    ensures Scan(s[Scan(s).used..]) == Scanned([], 0, More)
    decreases |s|
  {
    hide TurnOf;
    match TurnOf(s)
    case Halt(_) => assert s[0..] == s;
    case Chunk(at, size) =>
      LeftoverIsStuck(s[at + size + 2..]);
      ResumeChunk(s, "", at, size);
  }

  /** The bytes left in the buffer and the payloads so far, after the pieces `pieces`. */
  datatype Fed = Fed(payloads: seq<string>, left: string, stop: Stop)

  /** The calls of parseChunkedBlocks on successive pieces, each behind the leftover of the one before. */
  function FeedPieces(left: string, pieces: seq<string>): (r: Fed)
    decreases |pieces|
  {
    if pieces == [] then Fed([], left, More)
    else
      var s := Scan(left + pieces[0]);
      if s.stop != More then Fed(s.payloads, "", s.stop)
      else
        var rest := FeedPieces((left + pieces[0])[s.used..], pieces[1..]);
        Fed(s.payloads + rest.payloads, rest.left, rest.stop)
  }

  /** The payloads and the outcome do not depend on how the bytes are cut into pieces. */
  lemma {:induction false} FragmentationIndependent(left: string, pieces: seq<string>)
    requires SteadyScan(left + Flatten(pieces)) && Scan(left) == Scanned([], 0, More)
    ensures var r := FeedPieces(left, pieces);
            var s := Scan(left + Flatten(pieces));
            r.payloads == s.payloads && r.stop == s.stop
    decreases |pieces|
  {
    hide Scan;
    if pieces == [] {
      assert left + Flatten(pieces) == left;
    } else {
      var text, more := left + pieces[0], Flatten(pieces[1..]);
      assert left + Flatten(pieces) == text + more;
      ScanExtend(text, more);
      if Scan(text).stop == More {
        LeftoverIsStuck(text);
        FragmentationIndependent(text[Scan(text).used..], pieces[1..]);
      }
    }
  }

  // ------------------------------------------------- well-formed messages

  /** One chunk as written by a sender: its size in one to four hexadecimal digits, and its data. */
  datatype ChunkText = ChunkText(size: string, data: string) {
    ghost predicate WellFormed() {
      && |size| <= 4 && SpellsHex(size, |data|) && data != ""
    }

    function Text(): (s: string) {
      size + "\r\n" + data + "\r\n"
    }
  }

  function Encode(chunks: seq<ChunkText>): (s: string) {
    if chunks == [] then "" else chunks[0].Text() + Encode(chunks[1..])
  }

  function Payloads(chunks: seq<ChunkText>): (r: seq<string>)
    ensures |r| == |chunks|
  {
    if chunks == [] then [] else [chunks[0].data] + Payloads(chunks[1..])
  }

  /** The last chunk: any number of zeros, a line end, and a trailer the decoder does not look at. */
  function LastChunk(zeros: nat, trailer: string): (s: string) {
    seq(zeros + 1, i => '0') + "\r\n" + trailer
  }

  lemma {:induction false} HexDigitsAppend(d: string, q: string, acc: nat)
    requires forall k :: 0 <= k < |d| ==> IsHex(d[k])
    requires q != "" && !IsHex(q[0])
    ensures HexDigits(d + q, acc) == HexDigits(d, acc)
  {
    if d == "" {
      assert d + q == q;
    } else {
      assert (d + q)[1..] == d[1..] + q;
      HexDigitsAppend(d[1..], q, acc * 16 + HexOf(d[0]));
    }
  }

  lemma {:induction false} HexDigitsSnoc(d: string, c: char, acc: nat)
    requires IsHex(c) && forall k :: 0 <= k < |d| ==> IsHex(d[k])
    ensures HexDigits(d + [c], acc) == 16 * HexDigits(d, acc) + HexOf(c)
  {
    if d == "" {
      assert d + [c] == [c] && [c][1..] == "";
    } else {
      assert (d + [c])[1..] == d[1..] + [c];
      HexDigitsSnoc(d[1..], c, acc * 16 + HexOf(d[0]));
    }
  }

  /** The digits of a spelled number, read back. */
  lemma {:induction false} SpelledDigits(d: string, n: nat)
    requires SpellsHex(d, n)
    ensures d != "" && (forall k :: 0 <= k < |d| ==> IsHex(d[k])) && HexDigits(d, 0) == n
  {
    var k := |d| - 1;
    HexOfExact(d[k], n % 16);
    assert d == d[..k] + [d[k]];
    if k > 0 {
      SpelledDigits(d[..k], n / 16);
    } else {
      assert d[..k] == "";
    }
    hide HexOf, IsHex, HexDigitOf;
    HexDigitsSnoc(d[..k], d[k], 0);
  }

  lemma {:induction false} FindCrlfAfterHex(d: string, q: string)
    requires forall k :: 0 <= k < |d| ==> IsHex(d[k])
    requires |q| >= 2 && q[0] == '\r' && q[1] == '\n'
    ensures FindCrlf(d + q) == |d|
  {
    if d == "" {
      assert d + q == q;
    } else {
      assert (d + q)[1..] == d[1..] + q;
      FindCrlfAfterHex(d[1..], q);
    }
  }

  /** What strtol makes of a digit line. */
  lemma {:induction false} StrtolLine(d: string, q: string)
    requires d != "" && forall k :: 0 <= k < |d| ==> IsHex(d[k])
    requires |q| >= 2 && q[0] == '\r' && q[1] == '\n'
    ensures Strtol16(d + q) == Saturate(HexDigits(d, 0))
  {
    HexDigitsAppend(d, q, 0);
    var s := d + q;
    assert IsHex(s[0]);
    assert |s| >= 2 && (s[1] == d[..][if |d| > 1 then 1 else 0] || s[1] == '\r');
  }

  lemma {:induction false} HexSteps(d: string, acc: nat, n: nat)
    requires |d| <= n <= 4
    ensures HexDigits(d, acc) <= acc * 65536 + 65535
    ensures n <= 0 ==> HexDigits(d, acc) == acc
    ensures n <= 1 ==> HexDigits(d, acc) <= acc * 16 + 15
    ensures n <= 2 ==> HexDigits(d, acc) <= acc * 256 + 255
    ensures n <= 3 ==> HexDigits(d, acc) <= acc * 4096 + 4095
  {
    if d != "" && IsHex(d[0]) {
      HexSteps(d[1..], acc * 16 + HexOf(d[0]), n - 1);
    }
  }

  lemma {:induction false} ChunkSlices(c: ChunkText, rest: string)
    ensures var text := c.Text() + rest;
            && text == c.size + ("\r\n" + c.data + "\r\n" + rest)
            && text[|c.size| + 2..|c.size| + 2 + |c.data|] == c.data
            && text[|c.size| + 2 + |c.data| + 2..] == rest
  {}

  lemma {:induction false} ChunkTurn(c: ChunkText, rest: string)
    requires c.WellFormed()
    ensures var text := c.Text() + rest;
            && TurnOf(text) == Chunk(|c.size| + 2, |c.data|)
            && SolidLine(text)
            && text[|c.size| + 2..|c.size| + 2 + |c.data|] == c.data
            && text[|c.size| + 2 + |c.data| + 2..] == rest
  {
    hide FindCrlf, Strtol16, HexDigits, SpellsHex;
    SpelledDigits(c.size, |c.data|);
    var q := "\r\n" + c.data + "\r\n" + rest;
    var text := c.Text() + rest;
    ChunkSlices(c, rest);
    FindCrlfAfterHex(c.size, q);
    StrtolLine(c.size, q);
    HexSteps(c.size, 0, 4);
    assert !IsSpace(text[0]);
  }

  /**
   * A size line of more than four bytes is refused, however its number ends: a chunk
   * extension (section 4.1.1 of RFC 7230) is, and a size of five digits.
   */
  lemma {:induction false} LongSizeRefused(d: string, n: nat, ext: string, rest: string)
    requires SpellsHex(d, n) && n > 0 && '\r' !in ext && (ext != "" ==> !IsHex(ext[0]) && ext[0] != 'x' && ext[0] != 'X')
    requires |d| + |ext| > 4
    ensures Scan(d + ext + "\r\n" + rest) == Scanned([], 0, BadSize)
  {
    var q := ext + "\r\n" + rest;
    var text := d + q;
    assert d + ext + "\r\n" + rest == text;
    SpelledDigits(d, n);
    NoReturn(d);
    CrlfAt(d + ext, rest);
    assert FindCrlf(text) == |d| + |ext|;
    HexDigitsAppend(d, q, 0);
    PlainNumber(d, q);
    hide FindCrlf, Strtol16, HexDigits, SpellsHex;
  }

  lemma {:induction false} NoReturn(d: string)
    requires forall k :: 0 <= k < |d| ==> IsHex(d[k])
    ensures '\r' !in d
  {}

  /** strtol on digits that something else than a digit or an x follows. */
  lemma {:induction false} PlainNumber(d: string, q: string)
    requires d != "" && forall k :: 0 <= k < |d| ==> IsHex(d[k])
    requires q != "" && !IsHex(q[0]) && q[0] != 'x' && q[0] != 'X'
    ensures Strtol16(d + q) == Saturate(HexDigits(d, 0))
  {
    HexDigitsAppend(d, q, 0);
    var s := d + q;
    assert s[0] == d[0] && IsHex(s[0]);
    assert |s| > 1 ==> s[1] == if |d| > 1 then d[1] else q[0];
  }

  lemma {:induction false} ZerosValue(d: string)
    requires forall k :: 0 <= k < |d| ==> d[k] == '0'
    ensures HexDigits(d, 0) == 0
  {
    if d != "" { ZerosValue(d[1..]); }
  }

  lemma {:induction false} LastTurn(zeros: nat, trailer: string)
    ensures TurnOf(LastChunk(zeros, trailer)) == Halt(End) && SolidLine(LastChunk(zeros, trailer))
  {
    var d := seq(zeros + 1, i => '0');
    var q := "\r\n" + trailer;
    assert LastChunk(zeros, trailer) == d + q;
    FindCrlfAfterHex(d, q);
    StrtolLine(d, q);
    ZerosValue(d);
    assert !IsSpace((d + q)[0]);
  }

  /** A well-formed message scans to its payloads and the end mark. */
  lemma {:induction false} ScanEncoded(chunks: seq<ChunkText>, zeros: nat, trailer: string)
    requires forall k :: 0 <= k < |chunks| ==> chunks[k].WellFormed()
    ensures var text := Encode(chunks) + LastChunk(zeros, trailer);
            && Scan(text) == Scanned(Payloads(chunks), |Encode(chunks)|, End)
            && SolidLines(text)
  {
    hide TurnOf, SolidLine, LastChunk;
    var last := LastChunk(zeros, trailer);
    var text := Encode(chunks) + last;
    if chunks == [] {
      assert text == last;
      LastTurn(zeros, trailer);
    } else {
      var c := chunks[0];
      var rest := Encode(chunks[1..]) + last;
      assert text == c.Text() + rest;
      ChunkTurn(c, rest);
      ScanEncoded(chunks[1..], zeros, trailer);
    }
  }

  /**
   * Drives the decoder with a list of pieces: each is put behind the leftover of the
   * one before, as the buffer of readBlocks is.
   */
  method Decode(blockSize: nat, pieces: seq<string>)
    returns (delivered: seq<string>, pending: string, finished: bool, stop: Stop)
    requires blockSize > 0 && |Flatten(pieces)| + 2 * blockSize < TWO_64
    ensures SteadyScan(Flatten(pieces)) ==> stop == Scan(Flatten(pieces)).stop
    ensures SteadyScan(Flatten(pieces)) ==>
              (delivered, pending)
              == Given(blockSize, [], "", Flatten(Scan(Flatten(pieces)).payloads), stop == End)
    ensures finished <==> stop == End
  {
    hide Given, Scan, SteadyScan;
    var decoder := new HttpChunked(blockSize);
    var left := "";
    ghost var fed: seq<string> := [];
    GivenStart(blockSize, [], "");
    stop := More;
    var i := 0;
    assert pieces[0..] == pieces;
    while i < |pieces| && stop == More
      invariant 0 <= i <= |pieces|
      invariant decoder.Valid() && fresh(decoder) && decoder.blockSize == blockSize
      invariant |left| + |Flatten(pieces[i..])| <= |Flatten(pieces)|
      invariant Given(blockSize, [], "", Flatten(fed), stop == End) == (decoder.delivered, decoder.chunkedBuffer)
      invariant decoder.finished <==> stop == End
      invariant var r := FeedPieces(left, pieces[i..]);
                var all := FeedPieces("", pieces);
                if stop == More then all.payloads == fed + r.payloads && all.stop == r.stop
                else all.payloads == fed && all.stop == stop
    {
      assert pieces[i..][1..] == pieces[i + 1..];
      var text := left + pieces[i];
      var buf := new char[|text|](j requires 0 <= j < |text| => text[j]);
      assert buf[..|text|] == text;
      ghost var payloads := Scan(text).payloads;
      ghost var soFar := fed;
      var osize;
      osize, stop := decoder.ParseChunkedBlocks(buf, |text|);
      GivenMore(blockSize, fed, payloads, stop == End);
      fed := fed + payloads;
      if stop == More {
        left := buf[..|text| - osize];
        assert left == text[osize..];
        assert forall r: seq<string> :: soFar + (payloads + r) == fed + r;
      }
      i := i + 1;
    }
    delivered, pending, finished := decoder.delivered, decoder.chunkedBuffer, decoder.finished;
    if SteadyScan(Flatten(pieces)) {
      assert "" + Flatten(pieces) == Flatten(pieces);
      EmptyScan();
      FragmentationIndependent("", pieces);
      assert stop == More ==> fed + [] == fed;
    }
  }

  lemma {:induction false} EmptyScan()
    ensures Scan("") == Scanned([], 0, More)
  {}

  /** Handing on more payloads behind earlier ones. */
  lemma {:induction false} GivenMore(b: nat, fed: seq<string>, more: seq<string>, ended: bool)
    requires b > 0
    ensures var (d, p) := Given(b, [], "", Flatten(fed), false);
            Given(b, d, p, Flatten(more), ended) == Given(b, [], "", Flatten(fed + more), ended)
  {
    hide Flatten, Feed;
    FlattenAppend(fed, more);
    FeedAppend(b, "", Flatten(fed), Flatten(more));
    var f := Feed(b, "", Flatten(fed));
    var g := Feed(b, f.pending, Flatten(more));
    assert [] + f.blocks + g.blocks == [] + (f.blocks + g.blocks);
    assert [] + f.blocks + (g.blocks + [g.pending]) == [] + (f.blocks + g.blocks + [g.pending]);
  }

  /**
   * The decoder on a well-formed message, whatever the pieces it arrives in: it ends at
   * the zero chunk, the listener has got exactly the payloads in order, nothing is
   * pending, and every block but the last has the block size.
   */
  method DecodeMessage(blockSize: nat, chunks: seq<ChunkText>, zeros: nat, trailer: string, pieces: seq<string>)
    returns (delivered: seq<string>, pending: string, finished: bool)
    requires blockSize > 0 && |Flatten(pieces)| + 2 * blockSize < TWO_64
    requires forall k :: 0 <= k < |chunks| ==> chunks[k].WellFormed()
    requires Flatten(pieces) == Encode(chunks) + LastChunk(zeros, trailer)
    ensures finished && pending == ""
    ensures Flatten(delivered) == Flatten(Payloads(chunks))
    ensures EndsShort(blockSize, delivered)
  {
    hide Given, Scan, SolidLines, SteadyScan, LastChunk, TurnOf;
    var stop;
    delivered, pending, finished, stop := Decode(blockSize, pieces);
    ScanEncoded(chunks, zeros, trailer);
    SolidLinesSteady(Flatten(pieces));
    GivenEnded(blockSize, Flatten(Payloads(chunks)));
  }

  lemma {:induction false} GivenEnded(b: nat, data: string)
    requires b > 0
    ensures var (d, p) := Given(b, [], "", data, true);
            p == "" && Flatten(d) == data && EndsShort(b, d)
  {
    FeedConserves(b, "", data);
    var f := Feed(b, "", data);
    FlattenOne(f.blocks, f.pending);
    assert [] + (f.blocks + [f.pending]) == f.blocks + [f.pending];
    assert "" + data == data;
    assert (f.blocks + [f.pending])[..|f.blocks|] == f.blocks;
  }
}

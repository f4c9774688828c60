/**
 * The incremental parser of a request head: HttpdUtil::urldecode and
 * HttpRequest::parseRequest with its two stages.
 *
 * A `char` stands for one byte, and the bytes received hold no NUL.
 */
module RequestHead {
  import opened Common
  import opened Chars
  import Inet
  import Reblock

  // ---------------------------------------------------------------- urldecode

  function UrlDecode(s: string): (r: string)
    ensures |r| <= |s|
  {
    if s == "" then ""
    else if s[0] == '%' && |s| >= 3 then
      (if IsHex(s[1]) && IsHex(s[2]) then [(16 * HexOf(s[1]) + HexOf(s[2])) as char] else s[..3]) + UrlDecode(s[3..])
    else [if s[0] == '+' then ' ' else s[0]] + UrlDecode(s[1..])
  }

  /** The C string at the start of some bytes. */
  function CText(s: string): (r: string)
    ensures r <= s && '\0' !in r
  {
    if s == "" || s[0] == '\0' then "" else [s[0]] + CText(s[1..])
  }

  /** What one turn of the loop writes, and where it goes on; `z` is the text with its NUL. */
  function Piece(z: string, s: nat): (p: string)
    requires s < |z|
    ensures 1 <= |p| <= 3
  {
    if z[s] == '%' && s + 3 < |z| then
      if IsHex(z[s + 1]) && IsHex(z[s + 2]) then [(16 * HexOf(z[s + 1]) + HexOf(z[s + 2])) as char]
      else [z[s], z[s + 1], z[s + 2]]
    else [if z[s] == '+' then ' ' else z[s]]
  }

  function Next(z: string, s: nat): (s': nat)
    requires s < |z|
    ensures s + |Piece(z, s)| <= s' <= |z|
  {
    if z[s] == '%' && s + 3 < |z| then s + 3 else s + 1
  }

  /** What is still to be written when `s` bytes of the text and its NUL are read. */
  function Remaining(url: string, s: nat): (r: string)
    requires s <= |url| + 1
  {
    if s <= |url| then UrlDecode(url[s..]) + "\0" else ""
  }

  lemma {:induction false} DecodeTurn(url: string, s: nat)
    requires s <= |url|
    ensures var z := url + "\0"; Remaining(url, s) == Piece(z, s) + Remaining(url, Next(z, s))
  {
    hide HexOf, IsHex;
    if s < |url| {
      assert url[s..][1..] == url[s + 1..];
      if s + 3 <= |url| { assert url[s..][3..] == url[s + 3..]; }
    }
  }

  /** The body of the loop of urldecode. */
  method DecodeOne(z: string, s: nat, dest: array<char>, d: nat) returns (s': nat, d': nat)
    requires s < |z| && d <= s && dest.Length == |z|
    modifies dest
    ensures s' == Next(z, s) && d <= d' <= s' && dest[..d'] == old(dest[..d]) + Piece(z, s)
  {
    var c := z[s];
    s', d' := s + 1, d;
    if c == '%' && s' + 2 < |z| {
      var c2, c3 := z[s'], z[s' + 1];
      s' := s' + 2;
      if IsHex(c2) && IsHex(c3) {
        dest[d'] := (16 * HexOf(c2) + HexOf(c3)) as char;
        d' := d' + 1;
      } else {
        dest[d'], dest[d' + 1], dest[d' + 2] := c, c2, c3;
        d' := d' + 3;
      }
    } else if c == '+' {
      dest[d'] := ' ';
      d' := d' + 1;
    } else {
      dest[d'] := c;
      d' := d' + 1;
    }
  }

  /** HttpdUtil::urldecode; `dest` has room for the text and its NUL. */
  method DecodeUrl(url: string) returns (out: string)
    requires '\0' !in url
    ensures out == CText(UrlDecode(url))
  {
    hide UrlDecode, CText, Piece, Next, Remaining;
    var z := url + "\0";
    var dest := new char[|z|];
    var s, d := 0, 0;
    DecodeStart(url);
    while s < |z|
      invariant d <= s <= |z|
      invariant dest[..d] + Remaining(url, s) == UrlDecode(url) + "\0"
    {
      DecodeTurn(url, s);
      assert dest[..d] + (Piece(z, s) + Remaining(url, Next(z, s))) == dest[..d] + Piece(z, s) + Remaining(url, Next(z, s));
      s, d := DecodeOne(z, s, dest, d);
    }
    CTextOfString(UrlDecode(url));
    out := CText(dest[..d]);
  }

  lemma {:induction false} DecodeStart(url: string)
    ensures Remaining(url, 0) == UrlDecode(url) + "\0"
    ensures Remaining(url, |url| + 1) == ""
    ensures forall r: string :: r + "" == r && "" + r == r
  {
    assert url[0..] == url;
  }

  lemma {:induction false} CTextOfString(s: string)
    ensures CText(s + "\0") == CText(s)
  {
    if s != "" && s[0] != '\0' {
      assert (s + "\0")[1..] == s[1..] + "\0";
      CTextOfString(s[1..]);
    }
  }

  /** The byte `c` in percent form, with digits of either case. */
  predicate IsPercent(e: string, c: char) {
    && c as int < 256 && |e| >= 3 && e[0] == '%'
    && HexDigitOf(e[1], c as int / 16) && HexDigitOf(e[2], c as int % 16)
  }

  /** A percent sign that is followed by two bytes which are no digits. */
  predicate NoPercent(e: string) {
    |e| >= 3 && e[0] == '%' && !(IsHex(e[1]) && IsHex(e[2]))
  }

  /**
   * A text and an encoding of it: bytes as themselves, a blank as plus, any byte in percent
   * form; a percent sign without two digits stands for itself, with the two bytes behind it.
   */
  ghost predicate Encodes(e: string, x: string)
    decreases |x|
  {
    if x == "" then e == ""
    else
      || (IsPercent(e, x[0]) && Encodes(e[3..], x[1..]))
      || (NoPercent(e) && e[..3] <= x && Encodes(e[3..], x[3..]))
      || (e != "" && (e[0] != '%' || |e| < 3) && e[0] != '+' && x[0] == e[0] && Encodes(e[1..], x[1..]))
      || (e != "" && x[0] == ' ' && e[0] == '+' && Encodes(e[1..], x[1..]))
  }

  /** Decoding undoes every encoding. */
  lemma {:induction false} DecodeEncoded(e: string, x: string)
    requires Encodes(e, x)
    ensures UrlDecode(e) == x
    decreases |x|
  {
    if x != "" {
      hide HexOf, IsHex, HexDigitOf;
      if IsPercent(e, x[0]) && Encodes(e[3..], x[1..]) {
        DecodeEncoded(e[3..], x[1..]);
        PercentHex(e, x[0]);
      } else if NoPercent(e) && e[..3] <= x && Encodes(e[3..], x[3..]) {
        DecodeEncoded(e[3..], x[3..]);
        assert x == e[..3] + x[3..];
      } else {
        DecodeEncoded(e[1..], x[1..]);
      }
      assert x == [x[0]] + x[1..];
    }
  }

  lemma {:induction false} PercentHex(e: string, c: char)
    requires IsPercent(e, c)
    ensures IsHex(e[1]) && IsHex(e[2]) && (16 * HexOf(e[1]) + HexOf(e[2])) as char == c
  {
    HexOfExact(e[1], c as int / 16);
    HexOfExact(e[2], c as int % 16);
    hide HexOf, IsHex, HexDigitOf;
  }

  lemma {:induction false} HexPercent(e: string)
    requires |e| >= 3 && e[0] == '%' && IsHex(e[1]) && IsHex(e[2])
    ensures IsPercent(e, (16 * HexOf(e[1]) + HexOf(e[2])) as char)
  {
    HexOfExact(e[1], HexOf(e[1]));
    HexOfExact(e[2], HexOf(e[2]));
    hide HexOf, IsHex, HexDigitOf;
  }

  /** Every text is an encoding of what it decodes to, and of nothing else. */
  lemma {:induction false} DecodeExact(e: string, x: string)
    ensures UrlDecode(e) == x <==> Encodes(e, x)
  {
    if Encodes(e, x) {
      DecodeEncoded(e, x);
    }
    EncodesDecoded(e);
  }

  lemma {:induction false} EncodesDecoded(e: string)
    ensures Encodes(e, UrlDecode(e))
    decreases |e|
  {
    hide HexOf, IsHex, HexDigitOf;
    if e != "" {
      var x := UrlDecode(e);
      if e[0] == '%' && |e| >= 3 {
        EncodesDecoded(e[3..]);
        if IsHex(e[1]) && IsHex(e[2]) {
          HexPercent(e);
          assert x[1..] == UrlDecode(e[3..]);
        } else {
          assert x == e[..3] + UrlDecode(e[3..]) && x[3..] == UrlDecode(e[3..]);
        }
      } else {
        EncodesDecoded(e[1..]);
        assert x[1..] == UrlDecode(e[1..]);
      }
    }
  }

  // ------------------------------------------------------------- request line

  /** strchr, or |s|. */
  function Find(s: string, c: char): (k: nat)
    ensures k <= |s| && (k < |s| ==> s[k] == c)
  {
    if s == "" || s[0] == c then 0 else 1 + Find(s[1..], c)
  }

  lemma {:induction false} FindIsFirst(s: string, c: char)
    ensures c !in s[..Find(s, c)]
  {
    if s != "" && s[0] != c {
      FindIsFirst(s[1..], c);
      assert s[..Find(s, c)] == [s[0]] + s[1..][..Find(s[1..], c)];
    }
  }

  /** strrchr, or -1. */
  function FindLast(s: string, c: char): (k: int)
    ensures -1 <= k < |s| && (k >= 0 ==> s[k] == c)
  {
    if s == "" then -1
    else if s[|s| - 1] == c then |s| - 1
    else FindLast(s[..|s| - 1], c)
  }

  lemma {:induction false} FindLastIsLast(s: string, c: char)
    ensures c !in s[FindLast(s, c) + 1..]
  {
    if s != "" && s[|s| - 1] != c {
      var t := s[..|s| - 1];
      FindLastIsLast(t, c);
      assert s[FindLast(t, c) + 1..] == t[FindLast(t, c) + 1..] + [s[|s| - 1]];
    }
  }

  datatype RequestLine = RequestLine(method_: string, request: string, query: string, file: string, fileExt: string,
                                     protocol: string, version: string)

  datatype LineResult = Line(line: RequestLine) | BadLine | NullQuery

  const NO_LINE := RequestLine("", "", "", "", "", "", "")

  /**
   * The fields of a request line; NullQuery when the decoded target is empty, whose
   * text is then a null pointer.
   */
  function ParseLine(s: string): (r: LineResult) {
    var b := Find(s, ' ');
    if b == |s| || b == 0 then BadLine else ParseTarget(s[..b], s[b + 1..])
  }

  function ParseTarget(m: string, rest: string): (r: LineResult) {
    var l := FindLast(rest, ' ');
    if l <= 0 then BadLine else ParseProtocol(m, CText(UrlDecode(rest[..l])), rest[l + 1..])
  }

  function ParseProtocol(m: string, request: string, tail: string): (r: LineResult) {
    if request == "" then NullQuery
    else
      var slash := Find(tail, '/');
      if slash == |tail| || slash == 0 then BadLine else Line(Fields(m, request, tail[..slash], tail[slash + 1..]))
  }

  /** Query and file are the decoded target around its first question mark, the extension the file's end. */
  function Fields(m: string, request: string, protocol: string, version: string): (l: RequestLine) {
    var q := Find(request, '?');
    var file := request[..q];
    RequestLine(m, request, if q < |request| then request[q + 1..] else "", file,
                if FindLast(file, '.') >= 0 then file[FindLast(file, '.') + 1..] else "", protocol, version)
  }

  /** The parts of a decoded target: the file before the first question mark, its extension, and the query. */
  ghost predicate TargetOf(l: RequestLine, request: string) {
    && l.request == request && '?' !in l.file && '.' !in l.fileExt
    && (if '?' in request then request == l.file + "?" + l.query else request == l.file && l.query == "")
    && if '.' in l.file then exists stem: string :: l.file == stem + "." + l.fileExt else l.fileExt == ""
  }

  /** There is one way to take a target apart. */
  lemma {:induction false} TargetUnique(k: RequestLine, l: RequestLine, request: string)
    requires TargetOf(k, request) && TargetOf(l, request)
    ensures k.file == l.file && k.query == l.query && k.fileExt == l.fileExt
  {
    if '?' in request {
      CutFirst(k.file, '?', k.query);
      CutFirst(l.file, '?', l.query);
    }
    if '.' in k.file {
      var s: string :| k.file == s + "." + k.fileExt;
      var t: string :| l.file == t + "." + l.fileExt;
      CutLast(s, '.', k.fileExt);
      CutLast(t, '.', l.fileExt);
    }
  }

  /** A text around the first `c`. */
  lemma {:induction false} AroundFirst(s: string, c: char)
    ensures var k := Find(s, c);
      && c !in s[..k]
      && if k < |s| then c in s && s == s[..k] + [c] + s[k + 1..] else c !in s && s[..k] == s
  {
    FindIsFirst(s, c);
    hide Find;
  }

  /** A text around the last `c`. */
  lemma {:induction false} AroundLast(s: string, c: char)
    ensures var k := FindLast(s, c);
      && c !in s[k + 1..]
      && if k >= 0 then c in s && s == s[..k] + [c] + s[k + 1..] else c !in s
  {
    FindLastIsLast(s, c);
    hide FindLast;
    var k := FindLast(s, c);
    if k < 0 { assert s[k + 1..] == s; }
  }

  lemma {:induction false} FieldsOf(m: string, request: string, protocol: string, version: string)
    ensures var l := Fields(m, request, protocol, version);
            TargetOf(l, request) && l.method_ == m && l.protocol == protocol && l.version == version
  {
    AroundFirst(request, '?');
    AroundLast(request[..Find(request, '?')], '.');
    hide Find, FindLast;
  }

  /**
   * An accepted request line: a method without blank, an encoded target, a protocol without
   * slash and a version without blank, and the fields are the parts of the decoded target.
   */
  lemma {:induction false} AcceptedLine(s: string) returns (target: string)
    requires ParseLine(s).Line?
    ensures var l := ParseLine(s).line;
      && s == l.method_ + [' '] + (target + [' '] + (l.protocol + ['/'] + l.version))
      && l.method_ != "" && ' ' !in l.method_ && target != "" && ' ' !in l.protocol && ' ' !in l.version
      && l.protocol != "" && '/' !in l.protocol
      && l.request == CText(UrlDecode(target)) != "" && TargetOf(l, l.request)
  {
    var b := Find(s, ' ');
    AroundFirst(s, ' ');
    hide Find, ParseTarget;
    target := AcceptedTarget(s[..b], s[b + 1..]);
  }

  lemma {:induction false} AcceptedTarget(m: string, rest: string) returns (target: string)
    requires ParseTarget(m, rest).Line?
    ensures var l := ParseTarget(m, rest).line;
      && rest == target + [' '] + (l.protocol + ['/'] + l.version) && target != ""
      && ' ' !in l.protocol && ' ' !in l.version && l.protocol != "" && '/' !in l.protocol
      && l.method_ == m && l.request == CText(UrlDecode(target)) != "" && TargetOf(l, l.request)
  {
    var k := FindLast(rest, ' ');
    AroundLast(rest, ' ');
    target := rest[..k];
    hide FindLast, UrlDecode, CText, ParseProtocol, TargetOf;
    AcceptedProtocol(m, CText(UrlDecode(target)), rest[k + 1..], ' ');
  }

  lemma {:induction false} AcceptedProtocol(m: string, request: string, tail: string, c: char)
    requires ParseProtocol(m, request, tail).Line? && c !in tail
    ensures var l := ParseProtocol(m, request, tail).line;
      && tail == l.protocol + ['/'] + l.version && l.protocol != "" && '/' !in l.protocol
      && c !in l.protocol && c !in l.version
      && l.method_ == m && l.request == request != "" && TargetOf(l, request)
  {
    var slash := Find(tail, '/');
    AroundFirst(tail, '/');
    FieldsOf(m, request, tail[..slash], tail[slash + 1..]);
    hide Find, TargetOf, Fields;
  }

  // ------------------------------------------------------------------ headers

  /** String::isspace, which knows fewer blanks than the C library's. */
  predicate IsBlank(c: char) {
    c == ' ' || c == '\t' || c == '\r' || c == '\n'
  }

  function TrimLeft(s: string): (r: string) {
    if s != "" && IsBlank(s[0]) then TrimLeft(s[1..]) else s
  }

  function TrimRight(s: string): (r: string) {
    if s != "" && IsBlank(s[|s| - 1]) then TrimRight(s[..|s| - 1]) else s
  }

  /** String::trim. */
  function Trim(s: string): (r: string) {
    TrimRight(TrimLeft(s))
  }

  predicate AllBlank(s: string) {
    forall i :: 0 <= i < |s| ==> IsBlank(s[i])
  }

  lemma {:induction false} TrimLeftMeans(s: string) returns (before: string)
    ensures AllBlank(before) && s == before + TrimLeft(s)
    ensures TrimLeft(s) != "" ==> !IsBlank(TrimLeft(s)[0])
  {
    before := "";
    if s != "" && IsBlank(s[0]) {
      var b := TrimLeftMeans(s[1..]);
      before := [s[0]] + b;
    }
  }

  lemma {:induction false} TrimRightMeans(s: string) returns (behind: string)
    ensures AllBlank(behind) && s == TrimRight(s) + behind
    ensures TrimRight(s) != "" ==> !IsBlank(TrimRight(s)[|TrimRight(s)| - 1])
  {
    behind := "";
    if s != "" && IsBlank(s[|s| - 1]) {
      var b := TrimRightMeans(s[..|s| - 1]);
      behind := b + [s[|s| - 1]];
    }
  }

  /** Trimming removes blanks at both ends, and all of them. */
  lemma {:induction false} TrimMeans(s: string) returns (before: string, behind: string)
    ensures AllBlank(before) && AllBlank(behind) && s == before + Trim(s) + behind
    ensures var t := Trim(s); t != "" ==> !IsBlank(t[0]) && !IsBlank(t[|t| - 1])
  {
    hide TrimLeft, TrimRight;
    before := TrimLeftMeans(s);
    behind := TrimRightMeans(TrimLeft(s));
    assert Trim(s) != "" ==> Trim(s)[0] == TrimLeft(s)[0];
  }

  /** The headers the request keeps apart; `maxAge` and `upgrade` are the texts handed to atoi. */
  datatype Known = Known(host: string, userAgent: string, connection: string, keepAlive: bool, acceptLanguage: string,
                         acceptEncoding: string, ifModifiedSince: string, ifNoneMatch: string, ifRange: string,
                         cacheControl: bool, maxAge: Option<string>, upgrade: Option<string>)

  const NO_KNOWN := Known("", "", "", false, "", "", "", "", "", false, None, None)

  /** strstr(s, t) finds something. */
  predicate Contains(s: string, t: string) {
    |t| <= |s| && (s[..|t|] == t || (s != "" && Contains(s[1..], t)))
  }

  /** It finds it exactly when it is there. */
  lemma {:induction false} ContainsMeans(s: string, t: string)
    ensures Contains(s, t) <==> exists i :: 0 <= i <= |s| - |t| && s[i..][..|t|] == t
  {
    if |t| <= |s| {
      assert s[0..] == s;
      if s != "" {
        ContainsMeans(s[1..], t);
        if Contains(s[1..], t) {
          var i :| 0 <= i <= |s| - 1 - |t| && s[1..][i..][..|t|] == t;
          assert s[1..][i..] == s[i + 1..];
        }
        if exists i :: 0 < i <= |s| - |t| && s[i..][..|t|] == t {
          var i :| 0 < i <= |s| - |t| && s[i..][..|t|] == t;
          assert s[1..][i - 1..] == s[i..];
        }
      }
    }
  }

  function KeepKnown(known: Known, name: string, value: string): (k: Known) {
    if EqualsIgnoreCase(name, "Host") then known.(host := value)
    else if EqualsIgnoreCase(name, "User-Agent") then known.(userAgent := value)
    else if EqualsIgnoreCase(name, "Connection") then
      known.(connection := value,
             keepAlive := if EqualsIgnoreCase(value, "Keep-Alive") then true
                          else if EqualsIgnoreCase(value, "close") then false else known.keepAlive)
    else if EqualsIgnoreCase(name, "Accept-Language") then known.(acceptLanguage := value)
    else if EqualsIgnoreCase(name, "Accept-Encoding") then known.(acceptEncoding := value)
    else if EqualsIgnoreCase(name, "If-Modified-Since") then known.(ifModifiedSince := value)
    else if EqualsIgnoreCase(name, "If-None-Match") then known.(ifNoneMatch := value)
    else if EqualsIgnoreCase(name, "If-Range") then known.(ifRange := value)
    else if EqualsIgnoreCase(name, "Cache-Control") then
      var e := Find(value, '=');
      known.(cacheControl := true,
             maxAge := if 0 < e < |value| && !Contains(value, "max-age") then Some(value[e + 1..]) else known.maxAge)
    else if EqualsIgnoreCase(name, "Upgrade-Insecure-Requests") then known.(upgrade := Some(value))
    else known
  }

  /** What a header with the name `own` does to a text of its own. */
  function Taken(name: string, value: string, own: string, was: string): (t: string) {
    if EqualsIgnoreCase(name, own) then value else was
  }

  /**
   * Every field listens to one header name and to no other, whatever their order in the
   * source: the names exclude each other.
   */
  lemma {:induction false} FieldsByName(known: Known, name: string, value: string)
    ensures var k := KeepKnown(known, name, value);
      && k.host == Taken(name, value, "Host", known.host)
      && k.userAgent == Taken(name, value, "User-Agent", known.userAgent)
      && k.connection == Taken(name, value, "Connection", known.connection)
      && k.acceptLanguage == Taken(name, value, "Accept-Language", known.acceptLanguage)
      && k.acceptEncoding == Taken(name, value, "Accept-Encoding", known.acceptEncoding)
      && k.ifModifiedSince == Taken(name, value, "If-Modified-Since", known.ifModifiedSince)
      && k.ifNoneMatch == Taken(name, value, "If-None-Match", known.ifNoneMatch)
      && k.ifRange == Taken(name, value, "If-Range", known.ifRange)
      && k.keepAlive == (if !EqualsIgnoreCase(name, "Connection") then known.keepAlive
                         else if EqualsIgnoreCase(value, "Keep-Alive") then true
                         else if EqualsIgnoreCase(value, "close") then false else known.keepAlive)
      && (k.cacheControl <==> known.cacheControl || EqualsIgnoreCase(name, "Cache-Control"))
      && (if EqualsIgnoreCase(name, "Cache-Control") && '=' in value && value[0] != '=' && !Contains(value, "max-age")
          then k.maxAge.Some? && exists before: string :: '=' !in before && value == before + "=" + k.maxAge.value
          else k.maxAge == known.maxAge)
      && k.upgrade == if EqualsIgnoreCase(name, "Upgrade-Insecure-Requests") then Some(value) else known.upgrade
  {
    AroundFirst(value, '=');
    hide Find, Contains, EqualsIgnoreCase;
    NamesApart(name);
  }

  /** The letters by which the names differ: the first, or the length. */
  lemma {:induction false} NamesApart(name: string)
    ensures EqualsIgnoreCase(name, "Host") ==> |name| == 4
    ensures EqualsIgnoreCase(name, "User-Agent") ==> |name| == 10 && ToLowerAt(name, 0) == 'u'
    ensures EqualsIgnoreCase(name, "Connection") ==> |name| == 10 && ToLowerAt(name, 0) == 'c'
    ensures EqualsIgnoreCase(name, "Accept-Language") ==> |name| == 15 && ToLowerAt(name, 7) == 'l'
    ensures EqualsIgnoreCase(name, "Accept-Encoding") ==> |name| == 15 && ToLowerAt(name, 7) == 'e'
    ensures EqualsIgnoreCase(name, "If-Modified-Since") ==> |name| == 17
    ensures EqualsIgnoreCase(name, "If-None-Match") ==> |name| == 13 && ToLowerAt(name, 0) == 'i'
    ensures EqualsIgnoreCase(name, "If-Range") ==> |name| == 8
    ensures EqualsIgnoreCase(name, "Cache-Control") ==> |name| == 13 && ToLowerAt(name, 0) == 'c'
    ensures EqualsIgnoreCase(name, "Upgrade-Insecure-Requests") ==> |name| == 25
  {
    SameLetter(name, "Host", 0);
    SameLetter(name, "User-Agent", 0);
    SameLetter(name, "Connection", 0);
    SameLetter(name, "Accept-Language", 7);
    SameLetter(name, "Accept-Encoding", 7);
    SameLetter(name, "If-Modified-Since", 0);
    SameLetter(name, "If-None-Match", 0);
    SameLetter(name, "If-Range", 0);
    SameLetter(name, "Cache-Control", 0);
    SameLetter(name, "Upgrade-Insecure-Requests", 0);
    hide EqualsIgnoreCase;
  }

  function ToLowerAt(s: string, i: nat): (c: char)
    requires i < |s|
  {
    Inet.ToLower(s[i])
  }

  lemma {:induction false} SameLetter(s: string, t: string, i: nat)
    requires i < |t|
    ensures EqualsIgnoreCase(s, t) ==> |s| == |t| && ToLowerAt(s, i) == ToLowerAt(t, i)
  {
    if EqualsIgnoreCase(s, t) {
      assert Lower(s)[i] == Lower(t)[i];
    }
  }

  // -------------------------------------------------------------- the machine

  datatype Status = Ready | Header | Body

  datatype Request = Request(status: Status, buffer: string, line: RequestLine, headers: map<string, string>, known: Known)

  const FRESH := Request(Ready, "", NO_LINE, map[], NO_KNOWN)

  /** Again: more bytes are needed.  NullDereference: a search started at a null pointer. */
  datatype Outcome = Again | Done | Failed | NullDereference

  datatype Step = Step(outcome: Outcome, request: Request)

  /** The name and value of a header line that ends at `k`: up to the first colon of the whole buffer. */
  function AddHeader(r: Request, k: nat): (r': Request)
    requires k + 2 <= |r.buffer| && Find(r.buffer, ':') < |r.buffer|
  {
    var colon := Find(r.buffer, ':');
    var name := Trim(r.buffer[..colon]);
    // a colon behind the line makes the length wrap, and the allocation for the value fails
    var value := if colon < k then Trim(r.buffer[colon + 1..k]) else "";
    Request(r.status, r.buffer[k + 2..], r.line, r.headers[name := value], KeepKnown(r.known, name, value))
  }

  /** The header loop of parseRequest. */
  function Headers(r: Request): (s: Step)
    decreases |r.buffer|
  {
    if r.buffer == "" then Step(NullDereference, r)
    else
      var k := FindCrlf(r.buffer);
      if k == |r.buffer| then Step(Again, r)
      else if k == 0 then Step(Done, r.(status := Body, buffer := r.buffer[2..]))
      else
        var colon := Find(r.buffer, ':');
        if colon == |r.buffer| || colon == 0 then Step(Failed, r)
        else Headers(AddHeader(r, k))
  }

  /** Everything parseRequest does once the bytes are appended. */
  function Advance(r: Request): (s: Step) {
    match r.status
    case Ready =>
      var k := FindCrlf(r.buffer);
      if k == |r.buffer| then Step(Again, r)
      else (match ParseLine(r.buffer[..k])
        case BadLine => Step(Failed, r)
        case NullQuery => Step(NullDereference, r)
        case Line(l) => Headers(r.(status := Header, buffer := r.buffer[k + 2..], line := l)))
    case Header => Headers(r)
    case Body => Step(Done, r)
  }

  function More(r: Request, text: string): (r': Request) {
    r.(buffer := r.buffer + text)
  }

  /** HttpRequest::parseRequest. */
  function Parse(r: Request, text: string): (s: Step) {
    if text == "" then Step(Failed, r) else Advance(More(r, text))
  }

  // ------------------------------------------------- any split of the network

  predicate EndsCrlf(s: string) {
    |s| >= 2 && s[|s| - 2] == '\r' && s[|s| - 1] == '\n'
  }

  /** Complete header lines, each with a colon that is not its first character, and the blank line. */
  predicate HeadersWell(s: string)
    decreases |s|
  {
    var k := FindCrlf(s);
    k < |s| && (k == 0 || (0 < Find(s, ':') < k && HeadersWell(s[k + 2..])))
  }

  /** Length of the header lines with the blank line. */
  function HeadersLength(s: string): (n: nat)
    ensures n <= |s|
    decreases |s|
  {
    var k := FindCrlf(s);
    if k == |s| then |s| else if k == 0 then 2 else k + 2 + HeadersLength(s[k + 2..])
  }

  lemma {:induction false} FindStable(s: string, q: string, c: char)
    ensures Find(s, c) < |s| ==> Find(s + q, c) == Find(s, c)
  {
    if Find(s, c) < |s| && s[0] != c {
      assert (s + q)[1..] == s[1..] + q;
      FindStable(s[1..], q, c);
    }
  }

  /** A header line inside the buffer is not changed by what follows. */
  lemma {:induction false} AddHeaderStable(r: Request, b: string, k: nat)
    requires k == FindCrlf(r.buffer) < |r.buffer| && Find(r.buffer + b, ':') < k
    ensures Find(r.buffer, ':') == Find(r.buffer + b, ':')
    ensures AddHeader(More(r, b), k) == More(AddHeader(r, k), b)
  {
    hide FindCrlf, Trim, KeepKnown;
    var c := Find(r.buffer + b, ':');
    FindAgain(r.buffer, b, ':');
    assert (r.buffer + b)[..c] == r.buffer[..c] && (r.buffer + b)[c + 1..k] == r.buffer[c + 1..k];
    assert (r.buffer + b)[k + 2..] == r.buffer[k + 2..] + b;
  }

  lemma {:induction false} FindAgain(s: string, q: string, c: char)
    requires Find(s + q, c) < |s|
    ensures Find(s, c) == Find(s + q, c)
  {
    FindIsFirst(s, c);
    assert (s + q)[Find(s + q, c)] == s[Find(s + q, c)];
    assert s[..|s|] == s;
    FindStable(s, q, c);
  }

  lemma {:induction false} EndsCrlfDrop(s: string, n: nat)
    requires n < |s| && EndsCrlf(s[..n])
    ensures EndsCrlf(s) <==> EndsCrlf(s[n..])
  {}

  lemma {:induction false} NoCrlfEnd(s: string)
    requires FindCrlf(s) == |s|
    ensures !EndsCrlf(s)
  {
    if |s| >= 2 { assert !(s[|s| - 2] == '\r' && s[|s| - 1] == '\n'); }
  }

  /**
   * What the header loop does with a part of the header lines that `b` completes: it
   * waits for more unless the part ends right behind a line, and then it can go on where
   * it was.  `n` bytes are consumed.
   */
  ghost predicate Extends(r: Request, b: string, n: nat) {
    var s, all := Headers(r), r.buffer + b;
    && n <= |r.buffer| && (n > 0 ==> EndsCrlf(r.buffer[..n]))
    && match s.outcome
       case Again =>
         && |r.buffer| < HeadersLength(all) && !EndsCrlf(r.buffer)
         && n < |r.buffer| && s.request.buffer == r.buffer[n..] && s.request.status == r.status
         && FindCrlf(s.request.buffer) == |s.request.buffer|
         && HeadersLength(all) == n + HeadersLength(s.request.buffer + b) && HeadersWell(s.request.buffer + b)
         && Headers(More(r, b)) == Headers(More(s.request, b))
       case Done => |r.buffer| >= HeadersLength(all) && Headers(More(r, b)) == Step(Done, More(s.request, b))
       case NullDereference => |r.buffer| < HeadersLength(all) && EndsCrlf(r.buffer)
       case Failed => false
  }

  lemma {:induction false} HeadersExtend(r: Request, b: string) returns (n: nat)
    requires r.buffer != "" && HeadersWell(r.buffer + b)
    ensures Extends(r, b, n)
    decreases |r.buffer|
  {
    hide AddHeader, EndsCrlf, FindCrlf, Find, Extends, HeadersLength, HeadersWell, Headers;
    n := 0;
    var k := FindCrlf(r.buffer);
    if k == |r.buffer| {
      ExtendsWaiting(r, b);
    } else if k == 0 {
      ExtendsBlank(r, b);
    } else {
      var r' := LineStep(r, b);
      if r'.buffer == "" {
        ExtendsCut(r, b);
      } else {
        var m := HeadersExtend(r', b);
        n := k + 2 + m;
        ExtendsLine(r, r', b, k + 2, m);
      }
    }
  }

  lemma {:induction false} ExtendsWaiting(r: Request, b: string)
    requires r.buffer != "" && HeadersWell(r.buffer + b) && FindCrlf(r.buffer) == |r.buffer|
    ensures Extends(r, b, 0)
  {
    hide AddHeader, EndsCrlf, FindCrlf, Find;
    NoCrlfEnd(r.buffer);
    assert r.buffer[0..] == r.buffer;
    WaitingIsInside(r.buffer, b);
  }

  lemma {:induction false} ExtendsBlank(r: Request, b: string)
    requires r.buffer != "" && FindCrlf(r.buffer) == 0
    ensures Extends(r, b, 0)
  {
    hide AddHeader, EndsCrlf, FindCrlf, Find;
    FindCrlfStable(r.buffer, b);
    assert (r.buffer + b)[2..] == r.buffer[2..] + b;
  }

  /** One header line, alone and with more bytes behind. */
  lemma {:induction false} LineStep(r: Request, b: string) returns (r': Request)
    requires 0 < FindCrlf(r.buffer) < |r.buffer| && HeadersWell(r.buffer + b)
    ensures var k, all := FindCrlf(r.buffer), r.buffer + b;
      && k + 2 <= |r.buffer| && EndsCrlf(r.buffer[..k + 2])
      && r'.buffer == r.buffer[k + 2..] && r'.status == r.status && |r'.buffer| < |r.buffer|
      && Headers(r) == Headers(r') && Headers(More(r, b)) == Headers(More(r', b))
      && HeadersWell(r'.buffer + b) && HeadersLength(all) == k + 2 + HeadersLength(r'.buffer + b)
      && HeadersLength(r'.buffer + b) >= 2
  {
    hide AddHeader, EndsCrlf, FindCrlf, Find;
    var k := FindCrlf(r.buffer);
    var all := r.buffer + b;
    FindCrlfStable(r.buffer, b);
    assert all[k + 2..] == r.buffer[k + 2..] + b;
    AddHeaderStable(r, b, k);
    AddHeaderRest(r, k);
    AddHeaderRest(More(r, b), k);
    EndsAtLine(r.buffer, k);
    AtLeastTwo(all[k + 2..]);
    r' := AddHeader(r, k);
  }

  lemma {:induction false} ExtendsCut(r: Request, b: string)
    requires 0 < FindCrlf(r.buffer) < |r.buffer| && HeadersWell(r.buffer + b) && r.buffer[FindCrlf(r.buffer) + 2..] == ""
    ensures Extends(r, b, 0)
  {
    hide AddHeader, EndsCrlf, FindCrlf, Find, HeadersLength, HeadersWell;
    var r' := LineStep(r, b);
    assert r.buffer[..FindCrlf(r.buffer) + 2] == r.buffer;
    assert Headers(r').outcome == NullDereference;
  }

  lemma {:induction false} ExtendsLine(r: Request, r': Request, b: string, k: nat, m: nat)
    requires k <= |r.buffer| && EndsCrlf(r.buffer[..k]) && r'.buffer == r.buffer[k..] != "" && r'.status == r.status
    requires Headers(r) == Headers(r') && Headers(More(r, b)) == Headers(More(r', b))
    requires HeadersLength(r.buffer + b) == k + HeadersLength(r'.buffer + b)
    requires Extends(r', b, m)
    ensures Extends(r, b, k + m)
  {
    hide AddHeader, EndsCrlf, FindCrlf, Find, HeadersLength, HeadersWell, Headers;
    Consumed(r.buffer, k, m);
  }

  lemma {:induction false} Consumed(s: string, k: nat, m: nat)
    requires k < |s| && m <= |s| - k && EndsCrlf(s[..k]) && (m > 0 ==> EndsCrlf(s[k..][..m]))
    ensures EndsCrlf(s[..k + m]) && s[k..][m..] == s[k + m..]
    ensures EndsCrlf(s) <==> EndsCrlf(s[k..])
  {
    EndsCrlfDrop(s, k);
    if m > 0 {
      assert s[..k + m][..k] == s[..k] && s[..k + m][k..] == s[k..][..m];
      EndsCrlfDrop(s[..k + m], k);
    }
  }

  lemma {:induction false} EndsAtLine(s: string, k: nat)
    requires k == FindCrlf(s) < |s|
    ensures k + 2 <= |s| && EndsCrlf(s[..k + 2])
  {}

  lemma {:induction false} AddHeaderRest(r: Request, k: nat)
    requires k + 2 <= |r.buffer| && Find(r.buffer, ':') < |r.buffer|
    ensures AddHeader(r, k).buffer == r.buffer[k + 2..] && AddHeader(r, k).status == r.status
  {}

  lemma {:induction false} AtLeastTwo(s: string)
    requires HeadersWell(s)
    ensures HeadersLength(s) >= 2
  {}

  lemma {:induction false} WaitingIsInside(s: string, b: string)
    requires FindCrlf(s) == |s| && HeadersWell(s + b)
    ensures |s| < HeadersLength(s + b)
  {
    var all := s + b;
    assert forall j :: 0 <= j < |s| ==> all[j] == s[j];
    hide FindCrlf;
  }

  /** The reader: pieces from the network until the parser is done; also what is unread. */
  function Feed(r: Request, frags: seq<string>): (result: (Step, seq<string>))
    decreases |frags|
  {
    if frags == [] then (Step(Again, r), [])
    else
      var s := Parse(r, frags[0]);
      if s.outcome == Again then Feed(s.request, frags[1..]) else (s, frags[1..])
  }

  /** No piece that ends before the head does ends right behind a line. */
  predicate CleanCuts(before: string, frags: seq<string>, head: nat)
    decreases |frags|
  {
    frags != [] ==>
      var p := before + frags[0];
      |p| >= head || (!EndsCrlf(p) && CleanCuts(p, frags[1..], head))
  }

  predicate NonEmpty(frags: seq<string>) {
    forall i :: 0 <= i < |frags| ==> frags[i] != ""
  }

  /** The same as parsing everything at once, except for what has not been read yet. */
  ghost predicate SameAs(result: (Step, seq<string>), once: Step) {
    && result.0.outcome == once.outcome == Done
    && once.request == More(result.0.request, Reblock.Flatten(result.1))
  }

  lemma {:induction false} FlattenCons(r: Request, frags: seq<string>)
    requires frags != []
    ensures More(r, Reblock.Flatten(frags)) == More(More(r, frags[0]), Reblock.Flatten(frags[1..]))
    ensures r.buffer + Reblock.Flatten(frags) == r.buffer + frags[0] + Reblock.Flatten(frags[1..])
  {
    assert r.buffer + (frags[0] + Reblock.Flatten(frags[1..])) == r.buffer + frags[0] + Reblock.Flatten(frags[1..]);
  }

  /** The header stage; `before` was consumed earlier. */
  lemma {:induction false} FeedHeaders(r: Request, frags: seq<string>, before: string)
    requires r.status == Header && NonEmpty(frags) && FindCrlf(r.buffer) == |r.buffer|
    requires HeadersWell(r.buffer + Reblock.Flatten(frags))
    requires before != "" ==> EndsCrlf(before)
    ensures var all := r.buffer + Reblock.Flatten(frags);
      if CleanCuts(before + r.buffer, frags, |before| + HeadersLength(all))
      then SameAs(Feed(r, frags), Headers(More(r, Reblock.Flatten(frags))))
      else Feed(r, frags).0.outcome == NullDereference
    decreases |frags|, 1
  {
    hide Headers, HeadersWell, HeadersLength, FindCrlf, EndsCrlf, Reblock.Flatten, CleanCuts, Feed;
    if frags == [] {
      NothingMissing(r);
    } else {
      FlattenCons(r, frags);
      assert frags[0] != "" && NonEmpty(frags[1..]);
      assert before + r.buffer + frags[0] == before + More(r, frags[0]).buffer;
      FeedStep(r, frags, before + r.buffer, More(r, frags[0]), before);
    }
  }

  /** One piece in the header stage; `given` came before it, `before` of all that is consumed when the loop starts. */
  lemma {:induction false} FeedStep(r: Request, frags: seq<string>, given: string, h: Request, before: string)
    requires frags != [] && NonEmpty(frags[1..]) && Parse(r, frags[0]) == Headers(h)
    requires h.status == Header && h.buffer != "" && given + frags[0] == before + h.buffer
    requires before != "" ==> EndsCrlf(before)
    requires HeadersWell(h.buffer + Reblock.Flatten(frags[1..]))
    ensures var b := Reblock.Flatten(frags[1..]);
      if CleanCuts(given, frags, |before| + HeadersLength(h.buffer + b))
      then SameAs(Feed(r, frags), Headers(More(h, b)))
      else Feed(r, frags).0.outcome == NullDereference
    decreases |frags|, 0
  {
    hide Headers, HeadersWell, HeadersLength, FindCrlf, EndsCrlf, Extends, Reblock.Flatten, Parse;
    var n := HeadersExtend(h, Reblock.Flatten(frags[1..]));
    UseExtends(h, Reblock.Flatten(frags[1..]), n);
    EndsBehind(before, h.buffer);
    var s := Headers(h);
    if s.outcome == Again {
      var before' := before + h.buffer[..n];
      assert before' + s.request.buffer == before + h.buffer;
      if n > 0 { EndsBehind(before, h.buffer[..n]); } else { assert before' == before; }
      FeedHeaders(s.request, frags[1..], before');
    }
  }

  lemma {:induction false} NothingMissing(r: Request)
    requires FindCrlf(r.buffer) == |r.buffer|
    ensures !HeadersWell(r.buffer + Reblock.Flatten([]))
  {
    assert r.buffer + "" == r.buffer;
  }

  lemma {:induction false} EndsBehind(before: string, t: string)
    requires t != "" && (before != "" ==> EndsCrlf(before))
    ensures EndsCrlf(before + t) <==> EndsCrlf(t)
  {
    if before == "" {
      assert before + t == t;
    } else {
      assert (before + t)[..|before|] == before && (before + t)[|before|..] == t;
      EndsCrlfDrop(before + t, |before|);
    }
  }

  lemma {:induction false} UseExtends(r: Request, b: string, n: nat)
    requires Extends(r, b, n)
    ensures var s, all := Headers(r), r.buffer + b;
      && n <= |r.buffer| && (n > 0 ==> EndsCrlf(r.buffer[..n])) && s.outcome != Failed
      && (s.outcome == Again ==>
          && |r.buffer| < HeadersLength(all) && !EndsCrlf(r.buffer)
          && n < |r.buffer| && s.request.buffer == r.buffer[n..] && s.request.status == r.status
          && FindCrlf(s.request.buffer) == |s.request.buffer|
          && HeadersLength(all) == n + HeadersLength(s.request.buffer + b) && HeadersWell(s.request.buffer + b)
          && Headers(More(r, b)) == Headers(More(s.request, b)))
      && (s.outcome == Done ==> |r.buffer| >= HeadersLength(all) && Headers(More(r, b)) == Step(Done, More(s.request, b)))
      && (s.outcome == NullDereference ==> |r.buffer| < HeadersLength(all) && EndsCrlf(r.buffer))
  {
    hide Headers, HeadersWell, HeadersLength, FindCrlf, EndsCrlf;
  }

  /** A well-formed head: a request line that parses, header lines with their colons, a blank line. */
  predicate HeadWell(s: string) {
    var k := FindCrlf(s);
    k < |s| && ParseLine(s[..k]).Line? && HeadersWell(s[k + 2..])
  }

  function HeadLength(s: string): (n: nat)
    ensures n <= |s|
  {
    var k := FindCrlf(s);
    if k == |s| then |s| else k + 2 + HeadersLength(s[k + 2..])
  }

  /**
   * A well-formed head arriving in any non-empty pieces: the request is the one parsed
   * at once, and the bytes left over with the unread pieces are what follows the blank
   * line, exactly when no piece ends right behind a line before the head is complete.
   * A piece that does makes the parser search a null pointer.
   */
  lemma {:induction false} FeedReady(r: Request, frags: seq<string>)
    requires r.status == Ready && NonEmpty(frags) && FindCrlf(r.buffer) == |r.buffer|
    requires HeadWell(r.buffer + Reblock.Flatten(frags))
    ensures var all := r.buffer + Reblock.Flatten(frags);
      if CleanCuts(r.buffer, frags, HeadLength(all))
      then SameAs(Feed(r, frags), Advance(More(r, Reblock.Flatten(frags))))
      else Feed(r, frags).0.outcome == NullDereference
    decreases |frags|
  {
    hide Headers, HeadersWell, HeadersLength, FindCrlf, EndsCrlf, Extends, Reblock.Flatten, ParseLine;
    if frags == [] {
      assert r.buffer + Reblock.Flatten([]) == r.buffer by { NoPieces(r.buffer); }
    } else {
      var t, b := More(r, frags[0]), Reblock.Flatten(frags[1..]);
      FlattenCons(r, frags);
      assert frags[0] != "" && NonEmpty(frags[1..]);
      var k := FindCrlf(t.buffer);
      if k == |t.buffer| {
        NoCrlfEnd(t.buffer);
        WaitingForLine(t.buffer, b);
        FeedReady(t, frags[1..]);
      } else {
        FirstLine(r, t, b, k);
        var line := ParseLine(t.buffer[..k]).line;
        var h := t.(status := Header, buffer := t.buffer[k + 2..], line := line);
        if h.buffer == "" {
          FeedAtLine(t.buffer, b, k);
          HeadersOfNothing(h);
        } else {
          assert t.buffer == t.buffer[..k + 2] + h.buffer;
          FeedStep(r, frags, r.buffer, h, t.buffer[..k + 2]);
        }
      }
    }
  }

  lemma {:induction false} NoPieces(s: string)
    ensures s + Reblock.Flatten([]) == s
  {}

  lemma {:induction false} HeadersOfNothing(r: Request)
    requires r.buffer == ""
    ensures Headers(r) == Step(NullDereference, r)
  {}

  lemma {:induction false} WaitingForLine(s: string, b: string)
    requires FindCrlf(s) == |s| && FindCrlf(s + b) < |s + b|
    ensures |s| < HeadLength(s + b)
  {
    var all := s + b;
    assert forall j :: 0 <= j < |s| ==> all[j] == s[j];
    hide FindCrlf, HeadersLength;
  }

  /** The request line, alone and with more bytes behind. */
  lemma {:induction false} FirstLine(r: Request, t: Request, b: string, k: nat)
    requires k == FindCrlf(t.buffer) < |t.buffer| && HeadWell(t.buffer + b) && t.status == Ready
    ensures k + 2 <= |t.buffer| && EndsCrlf(t.buffer[..k + 2]) && ParseLine(t.buffer[..k]).Line?
    ensures HeadersWell(t.buffer[k + 2..] + b) && HeadLength(t.buffer + b) == k + 2 + HeadersLength(t.buffer[k + 2..] + b)
    ensures var h := t.(status := Header, buffer := t.buffer[k + 2..], line := ParseLine(t.buffer[..k]).line);
            Advance(t) == Headers(h) && Advance(More(t, b)) == Headers(More(h, b))
  {
    hide Headers, HeadersWell, HeadersLength, ParseLine;
    FindCrlfStable(t.buffer, b);
    EndsAtLine(t.buffer, k);
    hide FindCrlf, EndsCrlf;
    var all := t.buffer + b;
    assert all[..k] == t.buffer[..k] && all[k + 2..] == t.buffer[k + 2..] + b;
  }

  lemma {:induction false} FeedAtLine(s: string, b: string, k: nat)
    requires k == FindCrlf(s) < |s| && s[k + 2..] == "" && HeadersWell(s[k + 2..] + b)
    ensures EndsCrlf(s) && |s| < k + 2 + HeadersLength(s[k + 2..] + b)
  {
    AtLeastTwo(s[k + 2..] + b);
    hide HeadersWell, HeadersLength;
    assert s[..k + 2] == s;
    EndsAtLine(s, k);
  }

  /** A header line that starts with its colon is refused. */
  lemma {:induction false} NamelessRefused(r: Request, value: string, rest: string)
    requires '\r' !in value
    ensures var r' := r.(buffer := ":" + value + "\r\n" + rest); Headers(r') == Step(Failed, r')
  {
    CrlfAt(":" + value, rest);
    assert (":" + value)[0] == ':';
    assert Find(":" + value + "\r\n" + rest, ':') == 0;
    hide FindCrlf, Find;
  }

  /** The bytes that follow the blank line are what is left, when parsed at once. */
  lemma {:induction false} HeadersRest(r: Request)
    requires HeadersWell(r.buffer)
    ensures Headers(r).outcome == Done && Headers(r).request.status == Body
    ensures Headers(r).request.buffer == r.buffer[HeadersLength(r.buffer)..]
    decreases |r.buffer|
  {
    hide *;
    SomeLine(r.buffer);
    if FindCrlf(r.buffer) == 0 {
      BlankRest(r);
    } else {
      var n := FindCrlf(r.buffer) + 2;
      var r' := LineAlone(r);
      HeadersRest(r');
      DropTwice(r.buffer, n, HeadersLength(r'.buffer));
    }
  }

  lemma {:induction false} SomeLine(s: string)
    requires HeadersWell(s)
    ensures FindCrlf(s) < |s|
  {}

  lemma {:induction false} BlankRest(r: Request)
    requires FindCrlf(r.buffer) == 0 < |r.buffer|
    ensures Headers(r).outcome == Done && Headers(r).request.status == Body && HeadersLength(r.buffer) == 2 <= |r.buffer|
    ensures Headers(r).request.buffer == r.buffer[2..]
  {
    hide FindCrlf;
  }

  lemma {:induction false} LineAlone(r: Request) returns (r': Request)
    requires 0 < FindCrlf(r.buffer) < |r.buffer| && HeadersWell(r.buffer)
    ensures var k := FindCrlf(r.buffer) + 2;
      && k <= |r.buffer| && r'.buffer == r.buffer[k..] && Headers(r) == Headers(r') && HeadersWell(r'.buffer)
      && HeadersLength(r.buffer) == k + HeadersLength(r'.buffer)
  {
    hide *;
    assert r.buffer + "" == r.buffer;
    r' := LineStep(r, "");
    assert r'.buffer + "" == r'.buffer;
  }

  /** Parsed at once, a well-formed head leaves the bytes behind its blank line. */
  lemma {:induction false} OneShot(all: string)
    requires HeadWell(all)
    ensures var once := Parse(FRESH, all);
      once.outcome == Done && once.request.status == Body && once.request.buffer == all[HeadLength(all)..]
  {
    hide *;
    NotEmpty(all);
    ParseFresh(all);
    var h := FirstLineAlone(FRESH.(buffer := all));
    HeadersRest(h);
    var k := FindCrlf(all);
    DropTwice(all, k + 2, HeadersLength(h.buffer));
  }

  lemma {:induction false} ParseFresh(all: string)
    requires all != ""
    ensures FRESH.(buffer := all).status == Ready && Parse(FRESH, all) == Advance(FRESH.(buffer := all))
  {
    hide Advance;
    assert "" + all == all;
  }

  lemma {:induction false} DropTwice(s: string, m: nat, n: nat)
    requires m + n <= |s|
    ensures s[m..][n..] == s[m + n..]
  {}

  lemma {:induction false} FirstLineAlone(t: Request) returns (h: Request)
    requires t.status == Ready && HeadWell(t.buffer)
    ensures FindCrlf(t.buffer) + 2 <= |t.buffer|
    ensures h.buffer == t.buffer[FindCrlf(t.buffer) + 2..] && HeadersWell(h.buffer) && Advance(t) == Headers(h)
    ensures HeadLength(t.buffer) == FindCrlf(t.buffer) + 2 + HeadersLength(h.buffer)
  {
    hide Headers, HeadersWell, HeadersLength, ParseLine, FindCrlf, HeadWell, HeadLength, Advance, EndsCrlf;
    NotEmpty(t.buffer);
    var k := FindCrlf(t.buffer);
    assert t.buffer + "" == t.buffer;
    FirstLine(FRESH, t, "", k);
    h := t.(status := Header, buffer := t.buffer[k + 2..], line := ParseLine(t.buffer[..k]).line);
    assert h.buffer + "" == h.buffer;
  }

  lemma {:induction false} NotEmpty(all: string)
    requires HeadWell(all)
    ensures all != "" && FindCrlf(all) < |all|
  {}

  /** Independence of the split, from a fresh request. */
  lemma {:induction false} SplitIndependent(frags: seq<string>)
    requires NonEmpty(frags) && HeadWell(Reblock.Flatten(frags))
    ensures var all := Reblock.Flatten(frags);
      var once := Parse(FRESH, all);
      if CleanCuts("", frags, HeadLength(all)) then
        var (s, unread) := Feed(FRESH, frags);
        && s.outcome == Done
        && s.request == once.request.(buffer := s.request.buffer)
        && s.request.buffer + Reblock.Flatten(unread) == all[HeadLength(all)..]
      else Feed(FRESH, frags).0.outcome == NullDereference
  {
    var all := Reblock.Flatten(frags);
    OneShot(all);
    EmptyHasNoCrlf();
    assert "" + all == all;
    hide HeadWell, HeadLength, Feed, CleanCuts, Reblock.Flatten, Advance, FindCrlf;
    FeedReady(FRESH, frags);
  }

  lemma {:induction false} EmptyHasNoCrlf()
    ensures FindCrlf("") == 0
  {}

  // ---------------------------------------------------------- heads as written

  lemma {:induction false} FindAt(s: string, c: char, t: string)
    requires c !in s
    ensures Find(s + [c] + t, c) == |s|
  {
    if s != "" {
      assert (s + [c] + t)[1..] == s[1..] + [c] + t;
      assert (s + [c] + t)[0] == s[0] != c;
      FindAt(s[1..], c, t);
    }
  }

  lemma {:induction false} FindLastAt(s: string, c: char, t: string)
    requires c !in t
    ensures FindLast(s + [c] + t, c) == |s|
  {
    var all, n := s + [c] + t, |t| - 1;
    if t == "" {
      assert all[|s|] == c;
    } else {
      assert all[..|all| - 1] == s + [c] + t[..n];
      assert all[|all| - 1] == t[n] != c;
      FindLastAt(s, c, t[..n]);
    }
  }

  /** The request line of a method, an encoded target and a protocol version. */
  function RenderLine(m: string, target: string, protocol: string, version: string): (s: string) {
    m + " " + (target + " " + (protocol + "/" + version))
  }

  lemma {:induction false} CutFirst(a: string, c: char, b: string)
    requires c !in a
    ensures var s := a + [c] + b; Find(s, c) == |a| < |s| && s[..|a|] == a && s[|a| + 1..] == b
  {
    FindAt(a, c, b);
    hide Find;
  }

  lemma {:induction false} CutLast(a: string, c: char, b: string)
    requires c !in b
    ensures var s := a + [c] + b; FindLast(s, c) == |a| < |s| && s[..|a|] == a && s[|a| + 1..] == b
  {
    FindLastAt(a, c, b);
    hide FindLast;
  }

  /** A written request line is taken apart where it was put together. */
  lemma {:induction false} LineParsed(m: string, target: string, protocol: string, version: string)
    requires m != "" && ' ' !in m && target != "" && protocol != "" && ' ' !in protocol && '/' !in protocol && ' ' !in version
    ensures var request := CText(UrlDecode(target));
      ParseLine(RenderLine(m, target, protocol, version))
      == if request == "" then NullQuery else Line(Fields(m, request, protocol, version))
    ensures var request, r := CText(UrlDecode(target)), ParseLine(RenderLine(m, target, protocol, version));
      request != "" ==> r.Line? && r.line.method_ == m && r.line.protocol == protocol && r.line.version == version
                        && TargetOf(r.line, request)
  {
    FieldsOf(m, CText(UrlDecode(target)), protocol, version);
    hide Find, FindLast, UrlDecode, CText;
    var tail := protocol + ['/'] + version;
    var rest := target + [' '] + tail;
    CutFirst(m, ' ', rest);
    CutLast(target, ' ', tail);
    CutFirst(protocol, '/', version);
    assert RenderLine(m, target, protocol, version) == m + [' '] + rest;
    LineParts(m + [' '] + rest, m, rest);
    TargetParts(m, rest, target, tail);
    ProtocolParts(m, CText(UrlDecode(target)), tail, protocol, version);
    hide *;
  }

  lemma {:induction false} LineParts(s: string, m: string, rest: string)
    requires 0 < |m| == Find(s, ' ') < |s| && s[..|m|] == m && s[|m| + 1..] == rest
    ensures ParseLine(s) == ParseTarget(m, rest)
  {
    hide Find, ParseTarget;
  }

  lemma {:induction false} TargetParts(m: string, rest: string, target: string, tail: string)
    requires 0 < |target| == FindLast(rest, ' ') < |rest| && rest[..|target|] == target && rest[|target| + 1..] == tail
    ensures ParseTarget(m, rest) == ParseProtocol(m, CText(UrlDecode(target)), tail)
  {
    hide FindLast, CText, UrlDecode, ParseProtocol;
  }

  lemma {:induction false} ProtocolParts(m: string, request: string, tail: string, protocol: string, version: string)
    requires 0 < |protocol| == Find(tail, '/') < |tail| && tail[..|protocol|] == protocol && tail[|protocol| + 1..] == version
    ensures ParseProtocol(m, request, tail) == if request == "" then NullQuery else Line(Fields(m, request, protocol, version))
  {
    hide Find, Fields;
  }

  datatype Field = Field(name: string, value: string)

  /** A header that can be written: a name without colon, no CR. */
  predicate Writable(f: Field) {
    f.name != "" && ':' !in f.name && '\r' !in f.name && '\r' !in f.value
  }

  predicate AllWritable(fs: seq<Field>) {
    forall i :: 0 <= i < |fs| ==> Writable(fs[i])
  }

  function RenderHeaders(fs: seq<Field>): (s: string) {
    if fs == [] then "\r\n" else fs[0].name + ":" + fs[0].value + "\r\n" + RenderHeaders(fs[1..])
  }

  /** The map holds for every trimmed name the last trimmed value. */
  function Collect(headers: map<string, string>, fs: seq<Field>): (m: map<string, string>)
    decreases |fs|
  {
    if fs == [] then headers else Collect(headers[Trim(fs[0].name) := Trim(fs[0].value)], fs[1..])
  }

  function CollectKnown(known: Known, fs: seq<Field>): (k: Known)
    decreases |fs|
  {
    if fs == [] then known else CollectKnown(KeepKnown(known, Trim(fs[0].name), Trim(fs[0].value)), fs[1..])
  }

  /** Written headers are read back one by one, and the body is left. */
  lemma {:induction false} HeadersParsed(r: Request, fs: seq<Field>, body: string)
    requires AllWritable(fs) && r.buffer == RenderHeaders(fs) + body
    ensures HeadersWell(r.buffer) && HeadersLength(r.buffer) == |RenderHeaders(fs)|
    ensures Headers(r) == Step(Done, Request(Body, body, r.line, Collect(r.headers, fs), CollectKnown(r.known, fs)))
    decreases |fs|
  {
    hide FindCrlf, Find, KeepKnown, Trim;
    if fs == [] {
      CrlfAt("", body);
      assert "" + "\r\n" + body == r.buffer && r.buffer[2..] == body;
    } else {
      var r' := FieldParsed(r, fs, body);
      HeadersParsed(r', fs[1..], body);
    }
  }

  lemma {:induction false} FieldParsed(r: Request, fs: seq<Field>, body: string) returns (r': Request)
    requires AllWritable(fs) && fs != [] && r.buffer == RenderHeaders(fs) + body
    ensures AllWritable(fs[1..]) && Headers(r) == Headers(r')
    ensures var f, rest := fs[0], RenderHeaders(fs[1..]) + body;
      && r' == Request(r.status, rest, r.line, r.headers[Trim(f.name) := Trim(f.value)], KeepKnown(r.known, Trim(f.name), Trim(f.value)))
      && HeadersWell(r.buffer) == HeadersWell(rest)
      && HeadersLength(r.buffer) == |f.name| + |f.value| + 3 + HeadersLength(rest)
  {
    hide FindCrlf, Find, KeepKnown, Trim, RenderHeaders, AddHeader;
    var f, rest := fs[0], RenderHeaders(fs[1..]) + body;
    assert Writable(f);
    var line := f.name + ":" + f.value;
    RenderCons(fs, body);
    CrlfAt(line, rest);
    FindAt(f.name, ':', f.value + "\r\n" + rest);
    assert r.buffer == f.name + [':'] + (f.value + "\r\n" + rest);
    assert r.buffer[|line| + 2..] == rest;
    FieldAdded(r, f, rest);
    r' := AddHeader(r, |line|);
  }

  lemma {:induction false} FieldAdded(r: Request, f: Field, rest: string)
    requires r.buffer == f.name + [':'] + (f.value + "\r\n" + rest) && Find(r.buffer, ':') == |f.name|
    ensures AddHeader(r, |f.name| + 1 + |f.value|)
         == Request(r.status, rest, r.line, r.headers[Trim(f.name) := Trim(f.value)],
                    KeepKnown(r.known, Trim(f.name), Trim(f.value)))
  {
    hide Find, KeepKnown, Trim;
    var k := |f.name| + 1 + |f.value|;
    assert r.buffer[k + 2..] == rest && r.buffer[..|f.name|] == f.name && r.buffer[|f.name| + 1..k] == f.value;
  }

  lemma {:induction false} RenderCons(fs: seq<Field>, body: string)
    requires fs != []
    ensures RenderHeaders(fs) + body == fs[0].name + ":" + fs[0].value + "\r\n" + (RenderHeaders(fs[1..]) + body)
  {
    hide RenderHeaders;
    var line := fs[0].name + ":" + fs[0].value + "\r\n";
    assert RenderHeaders(fs) == line + RenderHeaders(fs[1..]) by { RenderStep(fs); }
    assert line + RenderHeaders(fs[1..]) + body == line + (RenderHeaders(fs[1..]) + body);
  }

  lemma {:induction false} RenderStep(fs: seq<Field>)
    requires fs != []
    ensures RenderHeaders(fs) == fs[0].name + ":" + fs[0].value + "\r\n" + RenderHeaders(fs[1..])
  {}

  /** What comes behind a written request line goes to the header loop. */
  lemma {:induction false} ParseWritten(m: string, target: string, protocol: string, version: string, rest: string)
    requires m != "" && ' ' !in m && target != "" && protocol != "" && ' ' !in protocol && '/' !in protocol && ' ' !in version
    requires '\r' !in RenderLine(m, target, protocol, version) && CText(UrlDecode(target)) != ""
    ensures var l := Fields(m, CText(UrlDecode(target)), protocol, version);
            Parse(FRESH, RenderLine(m, target, protocol, version) + "\r\n" + rest)
            == Headers(FRESH.(status := Header, buffer := rest, line := l))
  {
    hide RenderLine, ParseLine, FindCrlf, Fields, Headers, UrlDecode, CText;
    var line := RenderLine(m, target, protocol, version);
    var all := line + "\r\n" + rest;
    LineParsed(m, target, protocol, version);
    CrlfAt(line, rest);
    assert all[..|line|] == line && all[|line| + 2..] == rest && "" + all == all;
  }

  lemma {:induction false} HeadSplit(m: string, target: string, protocol: string, version: string, rest: string)
    requires m != "" && ' ' !in m && target != "" && protocol != "" && ' ' !in protocol && '/' !in protocol && ' ' !in version
    requires '\r' !in RenderLine(m, target, protocol, version) && CText(UrlDecode(target)) != ""
    ensures var all := RenderLine(m, target, protocol, version) + "\r\n" + rest;
            && (HeadersWell(rest) ==> HeadWell(all))
            && HeadLength(all) == |all| - |rest| + HeadersLength(rest)
  {
    hide RenderLine, ParseLine, FindCrlf, Fields, Headers, HeadersWell, HeadersLength, UrlDecode, CText;
    var line := RenderLine(m, target, protocol, version);
    var all := line + "\r\n" + rest;
    LineParsed(m, target, protocol, version);
    CrlfAt(line, rest);
    assert all[..|line|] == line && all[|line| + 2..] == rest;
  }

  /**
   * Round trip of a whole head: the request line's parts, the decoded target, every
   * header and the body come back.
   */
  lemma {:induction false} HeadRoundTrip(m: string, target: string, protocol: string, version: string, fs: seq<Field>, body: string)
    requires m != "" && ' ' !in m && target != "" && protocol != "" && ' ' !in protocol && '/' !in protocol && ' ' !in version
    requires '\r' !in RenderLine(m, target, protocol, version) && AllWritable(fs)
    requires CText(UrlDecode(target)) != ""
    ensures var all := RenderLine(m, target, protocol, version) + "\r\n" + (RenderHeaders(fs) + body);
      && HeadWell(all) && HeadLength(all) == |all| - |body|
      && Parse(FRESH, all) == Step(Done, Request(Body, body, Fields(m, CText(UrlDecode(target)), protocol, version),
                                                 Collect(map[], fs), CollectKnown(NO_KNOWN, fs)))
    ensures var line := Parse(FRESH, RenderLine(m, target, protocol, version) + "\r\n" + (RenderHeaders(fs) + body)).request.line;
      && line.method_ == m && line.protocol == protocol && line.version == version
      && TargetOf(line, CText(UrlDecode(target)))
  {
    FieldsOf(m, CText(UrlDecode(target)), protocol, version);
    hide RenderLine, RenderHeaders, ParseLine, FindCrlf, Fields, Headers, HeadersWell, HeadersLength;
    hide Collect, CollectKnown, UrlDecode, CText;
    var rest := RenderHeaders(fs) + body;
    ParseWritten(m, target, protocol, version, rest);
    HeadSplit(m, target, protocol, version, rest);
    var l := Fields(m, CText(UrlDecode(target)), protocol, version);
    HeadersParsed(FRESH.(status := Header, buffer := rest, line := l), fs, body);
  }

  /** Of several headers with one name the last is kept. */
  lemma {:induction false} LastHeaderKept(headers: map<string, string>, fs: seq<Field>, i: nat)
    requires i < |fs| && forall j :: i < j < |fs| ==> Trim(fs[j].name) != Trim(fs[i].name)
    ensures Trim(fs[i].name) in Collect(headers, fs) && Collect(headers, fs)[Trim(fs[i].name)] == Trim(fs[i].value)
    decreases |fs|
  {
    hide Trim;
    var headers' := headers[Trim(fs[0].name) := Trim(fs[0].value)];
    if i == 0 {
      forall j | 0 <= j < |fs| - 1 ensures Trim(fs[1..][j].name) != Trim(fs[0].name) {
        assert fs[1..][j] == fs[j + 1];
      }
      OtherHeadersKeep(headers', fs[1..], Trim(fs[0].name));
    } else {
      forall j | i - 1 < j < |fs| - 1 ensures Trim(fs[1..][j].name) != Trim(fs[1..][i - 1].name) {
        assert fs[1..][j] == fs[j + 1] && fs[1..][i - 1] == fs[i];
      }
      LastHeaderKept(headers', fs[1..], i - 1);
    }
  }

  lemma {:induction false} OtherHeadersKeep(headers: map<string, string>, fs: seq<Field>, name: string)
    requires name in headers && forall j :: 0 <= j < |fs| ==> Trim(fs[j].name) != name
    ensures name in Collect(headers, fs) && Collect(headers, fs)[name] == headers[name]
    decreases |fs|
  {
    hide Trim;
    if fs != [] {
      assert Trim(fs[0].name) != name;
      OtherHeadersKeep(headers[Trim(fs[0].name) := Trim(fs[0].value)], fs[1..], name);
    }
  }

  predicate IsConnection(f: Field) {
    EqualsIgnoreCase(Trim(f.name), "Connection")
  }

  /** The last Connection header decides whether the connection is kept. */
  lemma {:induction false} LastConnectionDecides(known: Known, fs: seq<Field>, i: nat)
    requires i < |fs| && IsConnection(fs[i]) && forall j :: i < j < |fs| ==> !IsConnection(fs[j])
    ensures var k, value := CollectKnown(known, fs), Trim(fs[i].value);
      && k.connection == value
      && (EqualsIgnoreCase(value, "Keep-Alive") ==> k.keepAlive)
      && (!EqualsIgnoreCase(value, "Keep-Alive") && EqualsIgnoreCase(value, "close") ==> !k.keepAlive)
    decreases |fs|
  {
    hide Trim, KeepKnown, EqualsIgnoreCase;
    var known' := KeepKnown(known, Trim(fs[0].name), Trim(fs[0].value));
    if i == 0 {
      ConnectionKept(known, Trim(fs[0].name), Trim(fs[0].value));
      forall j | 0 <= j < |fs| - 1 ensures !IsConnection(fs[1..][j]) {
        assert fs[1..][j] == fs[j + 1];
      }
      NoConnection(known', fs[1..]);
    } else {
      forall j | i - 1 < j < |fs| - 1 ensures !IsConnection(fs[1..][j]) {
        assert fs[1..][j] == fs[j + 1];
      }
      assert fs[1..][i - 1] == fs[i];
      LastConnectionDecides(known', fs[1..], i - 1);
    }
  }

  lemma {:induction false} NoConnection(known: Known, fs: seq<Field>)
    requires forall j :: 0 <= j < |fs| ==> !IsConnection(fs[j])
    ensures CollectKnown(known, fs).connection == known.connection && CollectKnown(known, fs).keepAlive == known.keepAlive
    decreases |fs|
  {
    hide Trim, EqualsIgnoreCase, Find, Contains;
    if fs != [] {
      assert !IsConnection(fs[0]);
      NoConnection(KeepKnown(known, Trim(fs[0].name), Trim(fs[0].value)), fs[1..]);
    }
  }

  lemma {:induction false} ConnectionKept(known: Known, name: string, value: string)
    requires EqualsIgnoreCase(name, "Connection")
    ensures var k := KeepKnown(known, name, value);
      && k.connection == value
      && (EqualsIgnoreCase(value, "Keep-Alive") ==> k.keepAlive)
      && (!EqualsIgnoreCase(value, "Keep-Alive") && EqualsIgnoreCase(value, "close") ==> !k.keepAlive)
  {
    hide Find, Contains;
    assert |Lower("Host")| == 4 && |Lower("Connection")| == 10;
    assert Lower("User-Agent")[0] == 'u' && Lower("Connection")[0] == 'c';
  }

  /** A piece that ends behind the request line: the parser searches a null pointer. */
  lemma {:induction false} SplitBehindLine()
    ensures var frags := ["G / H/1" + "\r\n", "\r\n"];
      && HeadWell(Reblock.Flatten(frags)) && Parse(FRESH, Reblock.Flatten(frags)).outcome == Done
      && Feed(FRESH, frags).0.outcome == NullDereference
  {
    hide *;
    var line, blank := "G / H/1" + "\r\n", "\r\n";
    assert EndsCrlf(line) by { EndsWithCrlf("G / H/1"); }
    SmallHead();
    FlattenTwo(line, blank);
    CutsBehind(line, blank);
    TwoPieces(line, blank);
    SplitIndependent([line, blank]);
  }

  lemma {:induction false} EndsWithCrlf(s: string)
    ensures EndsCrlf(s + "\r\n")
  {}

  lemma {:induction false} SmallHead()
    ensures var all := "G / H/1" + "\r\n" + "\r\n"; HeadWell(all) && HeadLength(all) == |all| && Parse(FRESH, all).outcome == Done
  {
    assert RenderHeaders([]) + "" == "\r\n";
    assert RenderLine("G", "/", "H", "1") == "G / H/1";
    assert UrlDecode("/") == "/" + UrlDecode("") && CText("/") == "/" + CText("");
    hide *;
    NothingWritable();
    HeadRoundTrip("G", "/", "H", "1", [], "");
  }

  lemma {:induction false} NothingWritable()
    ensures AllWritable([])
  {}

  lemma {:induction false} TwoPieces(a: string, b: string)
    requires a != "" && b != ""
    ensures NonEmpty([a, b])
  {}

  lemma {:induction false} CutsBehind(a: string, b: string)
    requires EndsCrlf(a) && b != ""
    ensures !CleanCuts("", [a, b], |a| + |b|)
  {
    assert "" + a == a;
  }

  lemma {:induction false} FlattenTwo(a: string, b: string)
    ensures Reblock.Flatten([a, b]) == a + b
  {
    assert [a, b][1..] == [b] && [b][1..] == [];
    assert Reblock.Flatten([b]) == b + "" == b;
  }

  /**
   * A header line without a colon, with the bytes `t` behind it.  Without a colon in `t`
   * it is refused; otherwise the line, the line end and what precedes that colon together
   * are stored as a name with no value, and the parser goes on with `t`.
   */
  lemma {:induction false} ColonlessLine(r: Request, line: string, t: string)
    requires line != "" && ':' !in line && '\r' !in line
    ensures var r' := r.(buffer := line + "\r\n" + t);
            && (':' !in t ==> Headers(r') == Step(Failed, r'))
            && (':' in t ==>
                  var name := Trim(line + "\r\n" + t[..Find(t, ':')]);
                  Headers(r') == Headers(r.(buffer := t, headers := r.headers[name := ""],
                                            known := KeepKnown(r.known, name, ""))))
  {
    hide *;
    var buffer := line + "\r\n" + t;
    var r' := r.(buffer := buffer);
    CrlfAt(line, t);
    if ':' in t {
      FindBehind(line + "\r\n", ':', t);
      ColonlessStep(r', |line|, t);
      NextHeader(r');
      var c := Find(t, ':');
      assert buffer[..|line| + 2 + c] == line + "\r\n" + t[..c];
    } else {
      assert ':' !in buffer;
      NoColon(buffer);
      RefusedLine(r');
    }
  }

  lemma {:induction false} ColonlessStep(r: Request, k: nat, t: string)
    requires k + 2 < Find(r.buffer, ':') + 1 <= |r.buffer| && r.buffer[k + 2..] == t
    ensures var name := Trim(r.buffer[..Find(r.buffer, ':')]);
            AddHeader(r, k) == r.(buffer := t, headers := r.headers[name := ""], known := KeepKnown(r.known, name, ""))
  {
    hide Find, Trim, KeepKnown;
  }

  lemma {:induction false} RefusedLine(r: Request)
    requires 0 < FindCrlf(r.buffer) < |r.buffer| && Find(r.buffer, ':') == |r.buffer|
    ensures Headers(r) == Step(Failed, r)
  {
    hide FindCrlf, Find;
  }

  lemma {:induction false} FindBehind(s: string, c: char, t: string)
    requires c !in s && c in t
    ensures Find(s + t, c) == |s| + Find(t, c) < |s + t|
  {
    if s == "" {
      assert s + t == t;
      FindThere(t, c);
    } else {
      assert (s + t)[1..] == s[1..] + t && (s + t)[0] == s[0] != c;
      FindBehind(s[1..], c, t);
    }
  }

  lemma {:induction false} FindThere(t: string, c: char)
    requires c in t
    ensures Find(t, c) < |t|
  {
    if t[0] != c {
      FindThere(t[1..], c);
    }
  }

  /** A request line that can be written, a line without a colon, and headers behind it. */
  ghost predicate Colonless(m: string, target: string, protocol: string, version: string, line: string, fs: seq<Field>) {
    && m != "" && ' ' !in m && target != "" && protocol != "" && ' ' !in protocol && '/' !in protocol && ' ' !in version
    && '\r' !in RenderLine(m, target, protocol, version) && CText(UrlDecode(target)) != ""
    && line != "" && ':' !in line && '\r' !in line && fs != [] && AllWritable(fs)
  }

  /**
   * A head with such a line in two pieces, the first of which ends anywhere between it and
   * the next colon: refused, while the same bytes in one piece are taken.
   */
  lemma {:induction false} ColonlessSplit(m: string, target: string, protocol: string, version: string, line: string,
                                          fs: seq<Field>, body: string, x: string, y: string)
    requires Colonless(m, target, protocol, version, line, fs)
    requires RenderHeaders(fs) + body == x + y && ':' !in x
    ensures var start := RenderLine(m, target, protocol, version) + "\r\n" + (line + "\r\n");
            var frags := [start + x, y];
            && Reblock.Flatten(frags) == start + (RenderHeaders(fs) + body)
            && Feed(FRESH, frags).0.outcome == Failed
            && Parse(FRESH, Reblock.Flatten(frags)).outcome == Done
  {
    hide *;
    var first := RenderLine(m, target, protocol, version) + "\r\n";
    var start, rest := first + (line + "\r\n"), RenderHeaders(fs) + body;
    FlattenTwo(start + x, y);
    assert start + x + y == start + rest by { Regroup(start, x, y); }
    assert start + x == first + (line + "\r\n" + x) && start + rest == first + (line + "\r\n" + rest);
    UseColonless(m, target, protocol, version, line, fs);
    ParseWritten(m, target, protocol, version, line + "\r\n" + x);
    ParseWritten(m, target, protocol, version, line + "\r\n" + rest);
    var r := FRESH.(status := Header, line := Fields(m, CText(UrlDecode(target)), protocol, version));
    ColonlessLine(r, line, x);
    ColonlessLine(r, line, rest);
    FailedFeed(start + x, y);
    ColonInside(fs, body);
    var name := Trim(line + "\r\n" + rest[..Find(rest, ':')]);
    HeadersParsed(r.(buffer := rest, headers := r.headers[name := ""], known := KeepKnown(r.known, name, "")), fs, body);
  }

  lemma {:induction false} Regroup(a: string, b: string, c: string)
    ensures a + b + c == a + (b + c)
  {}

  lemma {:induction false} UseColonless(m: string, target: string, protocol: string, version: string, line: string, fs: seq<Field>)
    requires Colonless(m, target, protocol, version, line, fs)
    ensures m != "" && ' ' !in m && target != "" && protocol != "" && ' ' !in protocol && '/' !in protocol && ' ' !in version
    ensures '\r' !in RenderLine(m, target, protocol, version) && CText(UrlDecode(target)) != ""
    ensures line != "" && ':' !in line && '\r' !in line && fs != [] && AllWritable(fs)
  {
    hide RenderLine, CText, UrlDecode, AllWritable;
  }

  lemma {:induction false} ColonInside(fs: seq<Field>, body: string)
    requires fs != []
    ensures ':' in RenderHeaders(fs) + body
  {
    hide RenderHeaders;
    RenderCons(fs, body);
    assert (RenderHeaders(fs) + body)[|fs[0].name|] == ':';
  }

  lemma {:induction false} FailedFeed(p: string, q: string)
    requires Parse(FRESH, p).outcome == Failed
    ensures Feed(FRESH, [p, q]).0 == Parse(FRESH, p)
  {
    hide Parse;
  }

  /** Such a head, cut inside the header that follows the line. */
  lemma {:induction false} ColonlessWitness()
    ensures var frags := ["G / H/1\r\nA\r\nB", ":c\r\n\r\n"];
            && Feed(FRESH, frags).0.outcome == Failed && Parse(FRESH, Reblock.Flatten(frags)).outcome == Done
  {
    var fs := [Field("B", "c")];
    assert RenderLine("G", "/", "H", "1") == "G / H/1";
    assert UrlDecode("/") == "/" + UrlDecode("") && CText("/") == "/" + CText("");
    assert RenderHeaders(fs[1..]) == "\r\n" && RenderHeaders(fs) + "" == "B:c\r\n\r\n";
    assert "G / H/1" + "\r\n" + ("A" + "\r\n") + "B" == "G / H/1\r\nA\r\nB";
    assert AllWritable(fs);
    hide *;
    assert "B" + ":c\r\n\r\n" == "B:c\r\n\r\n";
    SmallColonless(fs);
    ColonlessSplit("G", "/", "H", "1", "A", fs, "", "B", ":c\r\n\r\n");
  }

  lemma {:induction false} SmallColonless(fs: seq<Field>)
    requires fs != [] && AllWritable(fs)
    ensures Colonless("G", "/", "H", "1", "A", fs)
  {
    assert RenderLine("G", "/", "H", "1") == "G / H/1";
    assert UrlDecode("/") == "/" + UrlDecode("") && CText("/") == "/" + CText("");
  }

  lemma {:induction false} NoColon(s: string)
    requires ':' !in s
    ensures Find(s, ':') == |s|
  {}

  // --------------------------------------------------------------- the class

  class HttpRequest {
    var cstatus: Status
    var buffer: string
    var line: RequestLine
    var headers: map<string, string>
    var known: Known

    /** The state as a value. */
    function Now(): (r: Request)
      reads this
    {
      Request(cstatus, buffer, line, headers, known)
    }

    constructor ()
      ensures Now() == FRESH
    {
      cstatus, buffer, line, headers, known := Ready, "", NO_LINE, map[], NO_KNOWN;
    }

    /** The fields that come from the decoded target. */
    method SetTarget(request: string)
      modifies this`line
      ensures line == Fields(old(line.method_), request, old(line.protocol), old(line.version))
      ensures TargetOf(line, request)
    {
      FieldsOf(line.method_, request, line.protocol, line.version);
      hide Find, FindLast, TargetOf;
      var q := Find(request, '?');
      line := line.(request := request, query := if q < |request| then request[q + 1..] else "", file := request[..q]);
      var ext := FindLast(line.file, '.');
      line := line.(fileExt := if ext != -1 then line.file[ext + 1..] else "");
    }

    /** Takes the request line `s` apart. */
    method ReadLine(s: string) returns (o: Outcome)
      requires '\0' !in s
      modifies this`line
      ensures match ParseLine(s)
        case BadLine => o == Failed
        case NullQuery => o == NullDereference
        case Line(l) => o == Done && line == l
    {
      hide Find, FindLast, UrlDecode, CText, Fields, ParseTarget;
      var blank := Find(s, ' ');
      if blank == |s| || blank == 0 { return Failed; }
      line := line.(method_ := s[..blank]);
      o := ReadTarget(s[blank + 1..]);
    }

    /** The rest of the request line, up to and behind its last blank. */
    method ReadTarget(rest: string) returns (o: Outcome)
      requires '\0' !in rest
      modifies this`line
      ensures match ParseTarget(old(line.method_), rest)
        case BadLine => o == Failed
        case NullQuery => o == NullDereference
        case Line(l) => o == Done && line == l
    {
      hide Find, FindLast, UrlDecode, CText, Fields;
      var last := FindLast(rest, ' ');
      if last == -1 || last == 0 { return Failed; }
      var request := DecodeUrl(rest[..last]);
      if request == "" { return NullDereference; }
      FieldsProtocol(line.method_, request, line.protocol, line.version);
      SetTarget(request);
      var tail := rest[last + 1..];
      var slash := Find(tail, '/');
      if slash == |tail| || slash == 0 { return Failed; }
      line := line.(protocol := tail[..slash], version := tail[slash + 1..]);
      return Done;
    }

    /** HttpRequest::parseRequestReady; Done when the request line has been taken. */
    method ParseRequestReady() returns (o: Outcome)
      requires cstatus == Ready && '\0' !in buffer
      modifies this
      ensures Advance(old(Now())) == if o == Done then Headers(Now()) else Step(o, old(Now()))
      ensures o == Done ==> cstatus == Header
      ensures o == Again ==> Now() == old(Now())
    {
      hide FindCrlf, ParseLine, Headers;
      if buffer == "" {
        EmptyHasNoCrlf();
        return Again;
      }
      var test := FindCrlf(buffer);
      if test == |buffer| { return Again; }
      o := ReadLine(buffer[..test]);
      if o != Done { return; }
      buffer := buffer[test + 2..];
      cstatus := Header;
    }

    /** HttpRequest::parseRequestHeaders; `next` when a header was taken and another one may follow. */
    method ParseRequestHeaders() returns (o: Outcome, next: bool)
      requires cstatus == Header
      modifies this
      ensures var r := old(Now());
        if next then 0 < FindCrlf(r.buffer) < |r.buffer| && 0 < Find(r.buffer, ':') < |r.buffer|
                     && Now() == AddHeader(r, FindCrlf(r.buffer))
        else Headers(r) == Step(o, Now())
    {
      hide FindCrlf, Find, Trim, EqualsIgnoreCase, Contains;
      o, next := Done, false;
      if buffer == "" { return NullDereference, false; }
      var test := FindCrlf(buffer);
      if test == |buffer| { return Again, false; }
      if test == 0 {
        buffer := buffer[2..];
        cstatus := Body;
        return Done, false;
      }
      var colon := Find(buffer, ':');
      if colon == |buffer| || colon == 0 { return Failed, false; }
      var name := Trim(buffer[..colon]);
      var value := if colon < test then Trim(buffer[colon + 1..test]) else "";
      buffer := buffer[test + 2..];
      headers := headers[name := value];
      Keep(name, value);
      return Done, true;
    }

    /** The chain of header names at the end of parseRequestHeaders. */
    method Keep(name: string, value: string)
      modifies this`known
      ensures known == KeepKnown(old(known), name, value)
    {
      hide Find, EqualsIgnoreCase, Contains;
      if EqualsIgnoreCase(name, "Host") {
        known := known.(host := value);
      } else if EqualsIgnoreCase(name, "User-Agent") {
        known := known.(userAgent := value);
      } else if EqualsIgnoreCase(name, "Connection") {
        known := known.(connection := value);
        if EqualsIgnoreCase(value, "Keep-Alive") {
          known := known.(keepAlive := true);
        } else if EqualsIgnoreCase(value, "close") {
          known := known.(keepAlive := false);
        }
      } else if EqualsIgnoreCase(name, "Accept-Language") {
        known := known.(acceptLanguage := value);
      } else if EqualsIgnoreCase(name, "Accept-Encoding") {
        known := known.(acceptEncoding := value);
      } else if EqualsIgnoreCase(name, "If-Modified-Since") {
        known := known.(ifModifiedSince := value);
      } else if EqualsIgnoreCase(name, "If-None-Match") {
        known := known.(ifNoneMatch := value);
      } else if EqualsIgnoreCase(name, "If-Range") {
        known := known.(ifRange := value);
      } else if EqualsIgnoreCase(name, "Cache-Control") {
        known := known.(cacheControl := true);
        var e := Find(value, '=');
        if 0 < e < |value| {
          if !Contains(value, "max-age") { known := known.(maxAge := Some(value[e + 1..])); }
        }
      } else if EqualsIgnoreCase(name, "Upgrade-Insecure-Requests") {
        known := known.(upgrade := Some(value));
      }
    }

    /** The header loop. */
    method ParseHeaderLines() returns (o: Outcome)
      requires cstatus == Header
      modifies this
      ensures Headers(old(Now())) == Step(o, Now())
    {
      hide FindCrlf, Find, AddHeader, Headers;
      ghost var start := Now();
      while true
        invariant cstatus == Header && Headers(Now()) == Headers(start)
        decreases |buffer|
      {
        ghost var was := Now();
        var next;
        o, next := ParseRequestHeaders();
        if !next { return; }
        NextHeader(was);
      }
    }

    /** HttpRequest::parseRequest. */
    method ParseRequest(text: string) returns (o: Outcome)
      requires '\0' !in buffer && '\0' !in text
      modifies this
      ensures o == Parse(old(Now()), text).outcome
      ensures o == Again || o == Done ==> Now() == Parse(old(Now()), text).request
    {
      hide Headers, ParseLine;
      if text == "" { return Failed; }
      buffer := buffer + text;
      assert Now() == More(old(Now()), text);
      if cstatus == Ready {
        o := ParseRequestReady();
        if o != Done { return; }
        o := ParseHeaderLines();
      } else if cstatus == Header {
        o := ParseHeaderLines();
      } else {
        o := Done;
      }
    }
  }

  lemma {:induction false} FieldsProtocol(m: string, request: string, protocol: string, version: string)
    ensures forall p, v :: Fields(m, request, protocol, version).(protocol := p, version := v) == Fields(m, request, p, v)
  {}

  lemma {:induction false} NextHeader(r: Request)
    requires 0 < FindCrlf(r.buffer) < |r.buffer| && 0 < Find(r.buffer, ':') < |r.buffer|
    ensures Headers(r) == Headers(AddHeader(r, FindCrlf(r.buffer)))
    ensures |AddHeader(r, FindCrlf(r.buffer)).buffer| < |r.buffer| && AddHeader(r, FindCrlf(r.buffer)).status == r.status
  {
    hide FindCrlf, Find, Trim, KeepKnown;
  }

  /** The receive loop of HttpdClient::parseRequest, on the pieces that recv returns. */
  method ReceiveHead(request: HttpRequest, frags: seq<string>) returns (o: Outcome, unread: seq<string>)
    requires request.Now() == FRESH && NonEmpty(frags) && '\0' !in Reblock.Flatten(frags)
    modifies request
    ensures o == Feed(FRESH, frags).0.outcome && unread == Feed(FRESH, frags).1
    ensures o == Again || o == Done ==> request.Now() == Feed(FRESH, frags).0.request
  {
    hide Parse, Reblock.Flatten;
    unread := frags;
    o := Again;
    assert '\0' !in request.Now().buffer;
    while unread != []
      invariant o == Again && NonEmpty(unread)
      invariant '\0' !in request.Now().buffer && '\0' !in Reblock.Flatten(unread)
      invariant Feed(request.Now(), unread) == Feed(FRESH, frags)
      decreases |unread|
    {
      ghost var was := request.Now();
      FlattenParts(unread);
      AgainBuffer(was, unread[0]);
      o := request.ParseRequest(unread[0]);
      unread := unread[1..];
      if o != Again { return; }
    }
  }

  lemma {:induction false} FlattenParts(frags: seq<string>)
    requires frags != []
    ensures forall c :: c in frags[0] || c in Reblock.Flatten(frags[1..]) ==> c in Reblock.Flatten(frags)
  {}

  lemma {:induction false} AgainBuffer(r: Request, text: string)
    ensures Parse(r, text).outcome == Again ==> forall c :: c in Parse(r, text).request.buffer ==> c in r.buffer || c in text
  {
    hide Headers, ParseLine, FindCrlf;
    if text != "" {
      var t := More(r, text);
      match t.status
      case Ready =>
        var k := FindCrlf(t.buffer);
        if k < |t.buffer| && ParseLine(t.buffer[..k]).Line? {
          HeadersBuffer(t.(status := Header, buffer := t.buffer[k + 2..], line := ParseLine(t.buffer[..k]).line));
        }
      case Header => HeadersBuffer(t);
      case Body =>
    }
  }

  lemma {:induction false} HeadersBuffer(r: Request)
    ensures forall c :: c in Headers(r).request.buffer ==> c in r.buffer
    decreases |r.buffer|
  {
    hide FindCrlf, Find, AddHeader;
    var k := FindCrlf(r.buffer);
    if 0 < k < |r.buffer| && 0 < Find(r.buffer, ':') < |r.buffer| {
      AddHeaderRest(r, k);
      HeadersBuffer(AddHeader(r, k));
    }
  }
}

/**
 * Byte ranges: HttpdUtil::checkRangeBytes and the range switch of
 * HttpdClient::sendLocalFile_ready, in 64-bit unsigned arithmetic.
 */
module Range {
  import opened Common
  import opened Inet
  import opened Chars

  type uint64 = x: int | 0 <= x < TWO_64

  /** Conversion to uint64_t: wraps around. */
  function U64(x: int): (r: uint64) {
    x % TWO_64
  }

  // ------------------------------------------------------------------- atoll

  /** Value of the digits `s` starts with, appended to `acc`. */
  function Digits(s: string, acc: nat): (n: nat)
  {
    if s == "" || !IsDigit(s[0]) then acc else Digits(s[1..], acc * 10 + (s[0] as int - '0' as int))
  }

  function Saturate(x: int): (r: int) {
    if x > 0x7fff_ffff_ffff_ffff then 0x7fff_ffff_ffff_ffff
    else if x < -0x8000_0000_0000_0000 then -0x8000_0000_0000_0000
    else x
  }

  /** The C library's atoll: blanks, a sign, digits; saturates at the ends of the type. */
  function Atoll(s: string): (r: int)
    ensures -0x8000_0000_0000_0000 <= r <= 0x7fff_ffff_ffff_ffff
    decreases |s|
  {
    if s == "" then 0
    else if IsSpace(s[0]) then Atoll(s[1..])
    else if s[0] == '-' then Saturate(0 - (Digits(s[1..], 0) as int))
    else if s[0] == '+' then Saturate(Digits(s[1..], 0))
    else Saturate(Digits(s, 0))
  }

  // ----------------------------------------------------------- checkRangeBytes

  /** The shape of the Range header, the `minus` codes of the source in order. */
  datatype Request =
    | Whole                                  // 0: no usable range
    | Closed(start: string, end: string)     // 1: bytes=num-num
    | Suffix(end: string)                    // 2: bytes=-num
    | Multipart                              // 3: bytes=0-0,-1
    | Open(start: string)                    // 4: bytes=num-
    | Bad                                    // an error return
    | Overread                               // "bytes" alone: the source reads past the terminator

  /** Index of the first '-' at or after `i`, or |s|. */
  function FindDash(s: string, i: nat): (k: nat)
    requires i <= |s|
    ensures i <= k <= |s|
    ensures forall j :: i <= j < k ==> s[j] != '-'
    ensures k < |s| ==> s[k] == '-'
    decreases |s| - i
  {
    if i == |s| || s[i] == '-' then i else FindDash(s, i + 1)
  }

  /**
   * `range`, `accept`: the Range and Accept-Range headers; `stale`: an If-Range header
   * is present and does not match the file.
   */
  function CheckRange(range: Option<string>, stale: bool, accept: Option<string>): (r: Request)
  {
    if range.None? || stale || range.value == "" then Whole
    else if accept.Some? && accept.value != ""
      && !EqualsIgnoreCase(accept.value, "bytes") && !EqualsIgnoreCase(accept.value, "none") then Bad
    else
      var h := range.value;
      if |h| < 5 || Lower(h[..5]) != "bytes" then Bad
      else if |h| == 5 then Overread
      else
        var p := h[6..];
        if p == "" then Bad
        else if p[0] == '-' then Suffix(p[1..])
        else if p == "0-0,-1" then Multipart
        else
          var k := FindDash(p, 1);
          if k == |p| then Bad
          else if k + 1 == |p| then Open(p[..k])
          else Closed(p[..k], p[k + 1..])
  }

  // -------------------------------------------------------------- range switch

  /** What the response will carry: bytes start..end of the file. */
  datatype Plan = Plan(status: nat, start: uint64, end: uint64, length: uint64, ranged: bool)

  /** The switch on `minus`, before the two checks that follow it. */
  function Resolve(r: Request, fileSize: uint64): (p: Option<Plan>)
  {
    var last := U64(fileSize - 1);
    match r
    case Whole => Some(Plan(200, 0, last, fileSize, false))
    case Closed(s, e) =>
      var start := if s == "" then 0 else U64(Atoll(s));
      var given := if e == "" then last else U64(Atoll(e));
      var end := if fileSize <= given then last else given;
      Some(Plan(206, start, end, U64(end - start + 1), true))
    case Suffix(_) =>
      // sStart is never set for this shape, so the start is the file size
      Some(Plan(206, fileSize, last, U64(last - fileSize + 1), true))
    case Open(s) =>
      var start := if s == "" then 0 else U64(Atoll(s));
      Some(Plan(206, start, last, U64(last - start + 1), true))
    case Multipart => None
    case Bad => None
    case Overread => None
  }

  /** The plan the sender goes on with, or None for an error return. */
  function PlanFor(r: Request, fileSize: uint64): (p: Option<Plan>)
  {
    match Resolve(r, fileSize)
    case None => None
    case Some(p) => if p.end < p.start || fileSize <= p.start then None else Some(p)
  }

  predicate Inside(p: Plan, fileSize: uint64) {
    p.start <= p.end < fileSize && p.length == p.end - p.start + 1
  }

  /**
   * Whatever the header says, an accepted plan names a non-empty interval inside the
   * file and its length is the size of that interval, although the intermediate
   * values may have wrapped around.
   */
  lemma {:induction false} PlanInsideFile(r: Request, fileSize: uint64)
    ensures PlanFor(r, fileSize).Some? ==> Inside(PlanFor(r, fileSize).value, fileSize)
  {
    if fileSize > 0 {
      assert U64(fileSize - 1) == fileSize - 1;
    }
  }

  // --------------------------------------------------------- meaning of headers

  lemma {:induction false} DigitsDecTail(n: nat, rest: string)
    ensures Digits(Dec(n) + rest, 0) == Digits(rest, n)
  {
    DigitCharIsHex(n % 10);
    if n < 10 {
      assert (Dec(n) + rest)[1..] == rest;
    } else {
      var tail := [DigitChar(n % 10)] + rest;
      assert Dec(n) + rest == Dec(n / 10) + tail;
      DigitsDecTail(n / 10, tail);
      assert tail[1..] == rest;
    }
  }

  lemma {:induction false} DecIsDigits(n: nat)
    ensures forall k :: 0 <= k < |Dec(n)| ==> IsDigit(Dec(n)[k])
  {
    DigitCharIsHex(n % 10);
    if n >= 10 { DecIsDigits(n / 10); }
  }

  lemma {:induction false} AtollDec(n: nat)
    requires n <= 0x7fff_ffff_ffff_ffff
    ensures Atoll(Dec(n)) == n
  {
    DecIsDigits(n);
    DigitsDecTail(n, "");
    assert Dec(n) + "" == Dec(n);
    assert IsDigit(Dec(n)[0]);
  }

  /** The word bytes in any case and the character behind it, which is not looked at. */
  predicate IsUnit(unit: string) {
    |unit| == 6 && EqualsIgnoreCase(unit[..5], "bytes")
  }

  lemma {:induction false} BehindUnit(unit: string, p: string)
    requires IsUnit(unit) && p != ""
    ensures var h := unit + p; |h| > 5 && Lower(h[..5]) == "bytes" && h[6..] == p
  {
    assert Lower("bytes") == "bytes" && (unit + p)[..5] == unit[..5];
  }

  lemma {:induction false} CheckClosed(unit: string, a: string, b: string)
    requires IsUnit(unit) && a != "" && b != "" && a[0] != '-'
    requires forall k :: 0 <= k < |a| ==> a[k] != '-'
    requires !(a == "0" && b == "0,-1")
    ensures CheckRange(Some(unit + (a + "-" + b)), false, None) == Closed(a, b)
  {
    var p := a + "-" + b;
    BehindUnit(unit, p);
    assert p[|a|] == '-';
    assert FindDash(p, 1) == |a|;
    assert p[..|a|] == a && p[|a| + 1..] == b;
    NotMultipart(a, b);
  }

  lemma {:induction false} NotMultipart(a: string, b: string)
    requires a != "" && forall k :: 0 <= k < |a| ==> a[k] != '-'
    ensures a + "-" + b == "0-0,-1" ==> a == "0" && b == "0,-1"
  {
    var p := a + "-" + b;
    assert p[..|a|] == a && p[|a|] == '-' && p[|a| + 1..] == b;
    assert |a| > 1 ==> p[1] == a[1];
  }

  lemma {:induction false} CheckOpen(unit: string, a: string)
    requires IsUnit(unit) && a != "" && forall k :: 0 <= k < |a| ==> a[k] != '-'
    ensures CheckRange(Some(unit + (a + "-")), false, None) == Open(a)
  {
    var p := a + "-";
    BehindUnit(unit, p);
    assert p[|a|] == '-';
    assert FindDash(p, 1) == |a|;
    assert p[..|a|] == a;
    assert p != "0-0,-1" by { assert p[|p| - 1] == '-'; }
  }

  lemma {:induction false} RangeArithmetic(a: nat, b: nat, fileSize: uint64)
    requires a <= 0x7fff_ffff_ffff_ffff && b <= 0x7fff_ffff_ffff_ffff
    ensures U64(a) == a && U64(b) == b
    ensures fileSize > 0 ==> U64(fileSize - 1) == fileSize - 1
    ensures a <= b ==> U64(b - a + 1) == b - a + 1
    ensures a < fileSize ==> U64(fileSize - 1 - a + 1) == fileSize - a
  {}

  /** The position the served interval ends at when the header names `b`. */
  function Clip(b: nat, fileSize: uint64): (last: int) {
    if b < fileSize then b else fileSize - 1
  }

  lemma {:induction false} ClosedPlan(s: string, e: string, a: nat, b: nat, fileSize: uint64)
    requires a <= 0x7fff_ffff_ffff_ffff && b <= 0x7fff_ffff_ffff_ffff
    requires s != "" && e != "" && Atoll(s) == a && Atoll(e) == b
    ensures PlanFor(Closed(s, e), fileSize)
         == if a <= b && a < fileSize
            then Some(Plan(206, a, Clip(b, fileSize), Clip(b, fileSize) - a + 1, true)) else None
  {
    RangeArithmetic(a, b, fileSize);
  }

  lemma {:induction false} DecHasNo(n: nat)
    ensures forall k :: 0 <= k < |Dec(n)| ==> Dec(n)[k] != '-' && Dec(n)[k] != ','
  {
    DecIsDigits(n);
    forall k | 0 <= k < |Dec(n)| ensures Dec(n)[k] != '-' && Dec(n)[k] != ',' {
      assert IsDigit(Dec(n)[k]);
    }
  }

  /** Digits with something else behind them, as atoll reads them. */
  lemma {:induction false} AtollTail(n: nat, tail: string)
    requires n <= 0x7fff_ffff_ffff_ffff && (tail == "" || !IsDigit(tail[0]))
    ensures Atoll(Dec(n) + tail) == n
  {
    DecIsDigits(n);
    DigitsDecTail(n, tail);
    assert IsDigit(Dec(n)[0]) && (Dec(n) + tail)[0] == Dec(n)[0];
  }

  lemma {:induction false} NotSpecial(a: nat, b: nat, tail: string)
    requires (tail == "" || !IsDigit(tail[0])) && !(a == 0 && b == 0 && tail == ",-1")
    ensures !(Dec(a) == "0" && Dec(b) + tail == "0,-1")
  {
    if Dec(a) == "0" && Dec(b) + tail == "0,-1" {
      var d := Dec(b);
      var text := d + tail;
      DecHasNo(b);
      assert text[0] == d[0] && text[1] == ',' && forall k :: 0 <= k < |d| ==> text[k] == d[k];
      assert |d| == 1;
      assert tail == text[1..] == ",-1" && d == text[..1] == "0";
      OneZero(a);
      OneZero(b);
    }
  }

  lemma {:induction false} OneZero(n: nat)
    requires Dec(n) == "0"
    ensures n == 0
  {
    DigitsDecTail(n, "");
    assert Dec(n) + "" == Dec(n) && "0"[1..] == "";
    assert Digits("0", 0) == Digits("", 0) == 0;
  }

  /**
   * "bytes=a-b" is served exactly when a <= b and a is inside the file, clipped to the file;
   * so is it with other characters behind b, like more ranges, which are not looked at.
   */
  lemma {:induction false} ClosedRangeMeaning(unit: string, a: nat, b: nat, tail: string, fileSize: uint64)
    requires IsUnit(unit) && a <= 0x7fff_ffff_ffff_ffff && b <= 0x7fff_ffff_ffff_ffff
    requires (tail == "" || !IsDigit(tail[0])) && !(a == 0 && b == 0 && tail == ",-1")
    ensures PlanFor(CheckRange(Some(unit + (Dec(a) + "-" + (Dec(b) + tail))), false, None), fileSize)
         == if a <= b && a < fileSize
            then Some(Plan(206, a, Clip(b, fileSize), Clip(b, fileSize) - a + 1, true)) else None
  {
    var s, e := Dec(a), Dec(b) + tail;
    DecHasNo(a);
    NotSpecial(a, b, tail);
    CheckClosed(unit, s, e);
    AtollDec(a);
    AtollTail(b, tail);
    ClosedPlan(s, e, a, b, fileSize);
  }

  /** "bytes=a-" is served exactly when a is inside the file, to its end. */
  lemma {:induction false} OpenRangeMeaning(unit: string, a: nat, fileSize: uint64)
    requires IsUnit(unit) && a <= 0x7fff_ffff_ffff_ffff
    ensures PlanFor(CheckRange(Some(unit + (Dec(a) + "-")), false, None), fileSize)
         == if a < fileSize then Some(Plan(206, a, fileSize - 1, fileSize - a, true)) else None
  {
    DecHasNo(a);
    CheckOpen(unit, Dec(a));
    AtollDec(a);
    RangeArithmetic(a, 0, fileSize);
  }

  /** A suffix range is refused for every file and every count, and so is bytes=0-0,-1. */
  lemma {:induction false} SuffixAlwaysRefused(unit: string, e: string, accept: Option<string>, fileSize: uint64)
    requires IsUnit(unit)
    ensures PlanFor(CheckRange(Some(unit + ("-" + e)), false, accept), fileSize).None?
    ensures PlanFor(CheckRange(Some(unit + "0-0,-1"), false, accept), fileSize).None?
  {
    BehindUnit(unit, "-" + e);
    BehindUnit(unit, "0-0,-1");
    hide FindDash, EqualsIgnoreCase, Lower, IsUnit;
  }

  /** An empty file is never served; without a usable range any other file is served whole. */
  lemma {:induction false} WholeFile(r: Request, fileSize: uint64)
    ensures fileSize == 0 ==> PlanFor(r, fileSize).None?
    ensures fileSize > 0 ==> PlanFor(Whole, fileSize) == Some(Plan(200, 0, fileSize - 1, fileSize, false))
  {
    RangeArithmetic(0, 0, fileSize);
  }

  /** Without a Range header, with an empty one, or with a stale If-Range, any file but the empty one is served whole. */
  lemma {:induction false} NoLiveRange(range: Option<string>, stale: bool, accept: Option<string>, fileSize: uint64)
    requires range.None? || range.value == "" || stale
    ensures PlanFor(CheckRange(range, stale, accept), fileSize)
         == if fileSize > 0 then Some(Plan(200, 0, fileSize - 1, fileSize, false)) else None
  {
    WholeFile(CheckRange(range, stale, accept), fileSize);
    hide PlanFor;
  }

  /** An Accept-Range header other than bytes or none refuses a live range; otherwise it does not matter. */
  lemma {:induction false} AcceptRange(range: string, accept: Option<string>, fileSize: uint64)
    requires range != ""
    ensures var known := accept.None? || accept.value == "" || EqualsIgnoreCase(accept.value, "bytes")
                         || EqualsIgnoreCase(accept.value, "none");
            PlanFor(CheckRange(Some(range), false, accept), fileSize)
            == if known then PlanFor(CheckRange(Some(range), false, None), fileSize) else None
  {
    hide EqualsIgnoreCase, FindDash;
  }

  /** A live range that does not start with the word bytes, in any case, is refused. */
  lemma {:induction false} OtherUnit(range: string, accept: Option<string>, fileSize: uint64)
    requires range != "" && (|range| < 5 || !EqualsIgnoreCase(range[..5], "bytes"))
    ensures PlanFor(CheckRange(Some(range), false, accept), fileSize).None?
  {
    assert Lower("bytes") == "bytes";
    hide FindDash;
  }
}

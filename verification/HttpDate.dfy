/**
 * HTTP dates: HttpdUtil::isDateMask, expget and parseToTime, and
 * Time::getDateStringRfc822, against the calendar's own definition of a date.
 */
module HttpDate {
  import opened Common
  import opened Calendar
  import opened Chars
  import Inet

  const INT_MAX: int := 0x7FFF_FFFF
  const INT_MIN: int := -0x8000_0000

  /** Overflow stands for a signed int that leaves its range, after which C promises nothing. */
  datatype Outcome = Seconds(t: nat) | Rejected | Overflow

  predicate IsInt(n: int) {
    INT_MIN <= n <= INT_MAX
  }

  // ------------------------------------------------------------------- expget

  /** The result for a time of `total` seconds, of which `sec` are the seconds within the minute. */
  function Judge(total: int, sec: int): (r: Outcome) {
    if total - sec < INT_MIN || total > INT_MAX then Overflow
    else if total < 0 then Rejected
    else Seconds(total)
  }

  const DAY_OFFSET := [306, 337, 0, 31, 61, 92, 122, 153, 184, 214, 245, 275]

  /** The day count of expget, from the year counted from 1900. */
  function ClosedDays(year: int, mon: nat, day: int): (days: int)
    requires mon < 12
  {
    MarchDays(if mon < 2 then year - 1 else year) + DAY_OFFSET[mon] + day - 1 - 25508
  }

  /** It is the number of days from 1 January 1970, summed over the years and months. */
  lemma {:induction false} ClosedDaysCorrect(year: nat, mon: nat, day: int)
    requires mon < 12
    ensures ClosedDays(year, mon, day) == DayNumber(1900 + year, mon, day)
  {
    hide MarchDays, YearStart, MonthStart, YearLength;
    MarchDaysCorrect(1900 + year);
    MarchDaysCorrect(1901 + year);
    YearStartNext(1900 + year);
    MonthStarts(1900 + year);
    MonthStartZero(1900 + year);
  }

  /**
   * HttpdUtil::expget.  Every product and sum fits an int exactly when the time does and
   * the time without its seconds does, too; `OverflowExact` says for which dates that is.
   */
  method ExpGet(year: int, mon: int, day: int, hour: int, min: int, sec: int) returns (r: Outcome)
    requires 0 <= year <= 8099 && 0 <= mon < 12 && 1 <= day <= 31
    requires 0 <= hour <= 23 && 0 <= min <= 59 && 0 <= sec <= 61
    ensures r == Judge(SecondsOf(Stamp(1900 + year, mon, day, hour, min, sec)), sec)
  {
    hide DayNumber;
    ClosedDaysCorrect(year, mon, day);
    var y := year;
    if mon < 2 { y := y - 1; }
    var days := y * 365 + TruncDiv(y, 4) - TruncDiv(y, 100) + TruncDiv(TruncDiv(y, 100) + 3, 4);
    days := days + DAY_OFFSET[mon] + day - 1;
    days := days - 25508;
    assert days == DayNumber(1900 + year, mon, day);
    DaysBound(year, mon, day);
    var hours := days * 24 + hour;
    assert IsInt(days * 24) && IsInt(hours);
    if !IsInt(hours * 60) || !IsInt(hours * 60 + min) { return Overflow; }
    var minutes := hours * 60 + min;
    if !IsInt(minutes * 60) || !IsInt(minutes * 60 + sec) { return Overflow; }
    days := minutes * 60 + sec;
    if days < 0 { return Rejected; }
    return Seconds(days);
  }

  lemma {:induction false} DaysBound(year: int, mon: nat, day: int)
    requires 0 <= year <= 8099 && mon < 12 && 1 <= day <= 31
    ensures -30000 <= ClosedDays(year, mon, day) <= 3_500_000
  {}

  // ------------------------------------------------------------------- masks

  predicate IsUpper(c: char) { 'A' <= c <= 'Z' }
  predicate IsLower(c: char) { 'a' <= c <= 'z' }

  predicate FitsChar(d: char, m: char) {
    match m
    case '@' => IsUpper(d)
    case '$' => IsLower(d)
    case '#' => IsDigit(d)
    case '&' => IsHex(d)
    case '~' => d == ' ' || IsDigit(d)
    case _ => d == m
  }

  /** The data begins with one character for every mask character. */
  predicate Each(data: string, mask: string) {
    |data| >= |mask| && forall i :: 0 <= i < |mask| ==> FitsChar(data[i], mask[i])
  }

  /** Position of the first star, or the length. */
  function StarAt(mask: string): (k: nat)
    ensures k <= |mask| && (k < |mask| ==> mask[k] == '*') && '*' !in mask[..k]
  {
    if mask == "" || mask[0] == '*' then 0 else 1 + StarAt(mask[1..])
  }

  /** A mask fits up to its star, or as a whole; only 256 characters of it are looked at. */
  predicate Fits(data: string, mask: string) {
    var k := StarAt(mask);
    k < 256 && Each(data, mask[..k]) && (k == |mask| ==> |data| == |mask|)
  }

  /** HttpdUtil::isDateMask; the texts are C strings, ended by a NUL. */
  method IsDateMask(data: string, mask: string) returns (ok: bool)
    requires '\0' !in data && '\0' !in mask
    ensures ok == Fits(data, mask)
  {
    hide FitsChar;
    var i := 0;
    while i < 256
      invariant i <= |mask| && i <= |data| && i <= 256 && i <= StarAt(mask)
      invariant Each(data, mask[..i])
    {
      var end := i == |data|;
      if i == |mask| { return end; }
      if mask[i] == '*' { return true; }
      if end || !FitsChar(data[i], mask[i]) {
        assert mask[..StarAt(mask)][i] == mask[i];
        return false;
      }
      i := i + 1;
    }
    return false;
  }

  // -------------------------------------------------------------- parseToTime

  const MONTHS := ["Jan", "Feb", "Mar", "Apr", "May", "Jun", "Jul", "Aug", "Sep", "Oct", "Nov", "Dec"]

  function FindMonth(name: string, from: nat): (m: Option<nat>)
    ensures m.Some? ==> from <= m.value < 12 && MONTHS[m.value] == name
    ensures m.None? ==> forall k :: from <= k < 12 ==> MONTHS[k] != name
    decreases 12 - from
  {
    if from >= 12 then None else if MONTHS[from] == name then Some(from) else FindMonth(name, from + 1)
  }

  /** What a spelled-out date means: the calendar decides whether it exists and when it is. */
  function Evaluate(year: int, month: string, day: int, hour: int, min: int, sec: int): (r: Outcome) {
    var mon := FindMonth(month, 0);
    if year < 1900 || mon.None? then Rejected
    else
      var s := Stamp(year, mon.value, day, hour, min, sec);
      if Valid(s) then Judge(SecondsOf(s), sec) else Rejected
  }

  function Digit(c: char): (d: int) {
    c as int - '0' as int
  }

  function Num(s: string, i: nat): (n: int)
    requires i + 1 < |s|
  {
    Digit(s[i]) * 10 + Digit(s[i + 1])
  }

  const RFC1123 := "## @$$ #### ##:##:## "
  const RFC850 := "##-@$$-## ##:##:## "
  const ASCTIME := "@$$ ~# ##:##:## ####"
  const RFC1123_SHORT := "# @$$ #### ##:##:## "

  /** The four layouts, tried in this order on the text after the weekday. */
  function ParseRest(s: string): (r: Outcome) {
    if Each(s, RFC1123) then
      Evaluate(Num(s, 7) * 100 + Num(s, 9), s[3..6], Num(s, 0), Num(s, 12), Num(s, 15), Num(s, 18))
    else if Each(s, RFC850) then
      Evaluate((if Num(s, 7) < 70 then 2000 else 1900) + Num(s, 7), s[3..6], Num(s, 0), Num(s, 10), Num(s, 13), Num(s, 16))
    else if Each(s, ASCTIME) then
      Evaluate(Num(s, 16) * 100 + Num(s, 18), s[..3], (if s[4] == ' ' then 0 else Digit(s[4]) * 10) + Digit(s[5]),
               Num(s, 7), Num(s, 10), Num(s, 13))
    else if Each(s, RFC1123_SHORT) then
      Evaluate(Num(s, 6) * 100 + Num(s, 8), s[2..5], Digit(s[0]), Num(s, 11), Num(s, 14), Num(s, 17))
    else Rejected
  }

  function SkipSpaces(s: string): (r: string)
    ensures r != "" ==> !IsSpace(r[0])
  {
    if s != "" && IsSpace(s[0]) then SkipSpaces(s[1..]) else s
  }

  function AfterBlank(s: string): (r: Option<string>) {
    if s == "" then None else if s[0] == ' ' then Some(s[1..]) else AfterBlank(s[1..])
  }

  function Parse(date: string): (r: Outcome) {
    match AfterBlank(SkipSpaces(date))
    case None => Rejected
    case Some(rest) => ParseRest(rest)
  }

  /** The day checks of parseToTime; the year counts from 1900. */
  predicate DayChecks(year: int, mon: int, day: int) {
    && !(day <= 0 || day > 31)
    && !(day == 31 && (mon == 3 || mon == 5 || mon == 8 || mon == 10))
    && !(mon == 1 && (day > 29 || (day == 29 && (year % 4 != 0 || (year % 100 == 0 && year % 400 != 100)))))
  }

  /** They pass exactly the days that exist. */
  lemma {:induction false} DayChecksExact(year: nat, mon: int, day: int)
    requires 0 <= mon < 12
    ensures DayChecks(year, mon, day) <==> DayExists(1900 + year, mon, day)
  {
    hide IsLeap;
    LeapChecks(year);
  }

  lemma {:induction false} LeapChecks(year: nat)
    ensures (year % 4 != 0 || (year % 100 == 0 && year % 400 != 100)) <==> !IsLeap(1900 + year)
  {
    FourShift(year);
    HundredShift(year);
    FourHundredShift(year);
  }

  lemma {:induction false} FourShift(n: nat)
    ensures (1900 + n) % 4 == n % 4
  {}

  lemma {:induction false} HundredShift(n: nat)
    ensures (1900 + n) % 100 == n % 100
  {}

  lemma {:induction false} FourHundredShift(n: nat)
    ensures (1900 + n) % 400 == 0 <==> n % 400 == 100
  {}

  lemma {:induction false} StarAtEnd(mask: string)
    requires '*' !in mask
    ensures StarAt(mask + "*") == |mask|
  {
    if mask != "" {
      assert (mask + "*")[1..] == mask[1..] + "*";
      StarAtEnd(mask[1..]);
    }
  }

  lemma {:induction false} FitsOpenMask(data: string, mask: string)
    requires '*' !in mask && |mask| < 256
    ensures Fits(data, mask + "*") == Each(data, mask)
  {
    hide FitsChar;
    StarAtEnd(mask);
    assert (mask + "*")[..|mask|] == mask;
  }

  /** The three letters of a month packed into an int. */
  function MonthCode(name: string): (n: int)
    requires |name| == 3
  {
    name[0] as int * 0x10000 + name[1] as int * 0x100 + name[2] as int
  }

  lemma {:induction false} MonthCodeExact(a: string, b: string)
    requires |a| == |b| == 3 && forall i :: 0 <= i < 3 ==> a[i] as int < 256 && b[i] as int < 256
    ensures MonthCode(a) == MonthCode(b) <==> a == b
  {}

  method MonthNumber(name: string) returns (mon: nat)
    requires |name| == 3 && IsUpper(name[0]) && IsLower(name[1]) && IsLower(name[2])
    ensures mon <= 12 && FindMonth(name, 0) == if mon < 12 then Some(mon) else None
  {
    var mint := MonthCode(name);
    mon := 0;
    while mon < 12
      invariant mon <= 12
      invariant FindMonth(name, 0) == FindMonth(name, mon)
    {
      MonthCodeExact(name, MONTHS[mon]);
      if mint == MonthCode(MONTHS[mon]) { break; }
      mon := mon + 1;
    }
  }

  /** The range checks and expget at the end of parseToTime; the year counts from 1900. */
  method CheckAndConvert(year: int, month: string, day: int, hour: int, min: int, sec: int) returns (r: Outcome)
    requires 0 <= year <= 8099 && hour >= 0 && min >= 0 && sec >= 0
    requires |month| == 3 && IsUpper(month[0]) && IsLower(month[1]) && IsLower(month[2])
    ensures r == Evaluate(1900 + year, month, day, hour, min, sec)
  {
    hide MonthLength, SecondsOf, Judge;
    if day <= 0 || day > 31 { return Rejected; }
    if hour > 23 || min > 59 || sec > 61 { return Rejected; }
    var mon := MonthNumber(month);
    if mon == 12 { return Rejected; }
    DayChecksExact(year, mon, day);
    if day == 31 && (mon == 3 || mon == 5 || mon == 8 || mon == 10) { return Rejected; }
    if mon == 1 && (day > 29 || (day == 29 && (year % 4 != 0 || (year % 100 == 0 && year % 400 != 100)))) {
      return Rejected;
    }
    r := ExpGet(year, mon, day, hour, min, sec);
  }

  /** HttpdUtil::parseToTime on a text that is not null. */
  method ParseToTime(date: string) returns (r: Outcome)
    requires '\0' !in date
    ensures r == Parse(date)
  {
    hide Evaluate, FitsChar, Each;
    var p := 0;
    assert date[0..] == date;
    while p < |date| && IsSpace(date[p])
      invariant p <= |date| && SkipSpaces(date[p..]) == SkipSpaces(date)
    {
      assert date[p..][1..] == date[p + 1..];
      p := p + 1;
    }
    var start := date[p..];
    if start == "" { return Rejected; }
    var found := AfterBlank(start);
    if found.None? { return Rejected; }
    var s := found.value;
    AfterBlankKeeps(start);
    r := ParseLayouts(s);
  }

  lemma {:induction false} AfterBlankKeeps(s: string)
    ensures AfterBlank(s).Some? ==> forall c :: c in AfterBlank(s).value ==> c in s
  {
    if s != "" && s[0] != ' ' { AfterBlankKeeps(s[1..]); }
  }

  lemma {:induction false} StarFree()
    ensures '*' !in RFC1123 && '\0' !in RFC1123 && |RFC1123| == 21
    ensures '*' !in RFC850 && '\0' !in RFC850 && |RFC850| == 19
    ensures '*' !in ASCTIME && '\0' !in ASCTIME && |ASCTIME| == 20
    ensures '*' !in RFC1123_SHORT && '\0' !in RFC1123_SHORT && |RFC1123_SHORT| == 20
  {
    StarFree1123();
    StarFree850();
    hide RFC1123, RFC850;
  }

  lemma {:induction false} StarFree1123()
    ensures '*' !in RFC1123 && '\0' !in RFC1123 && |RFC1123| == 21
  {}

  lemma {:induction false} StarFree850()
    ensures '*' !in RFC850 && '\0' !in RFC850 && |RFC850| == 19
  {}

  method ParseLayouts(date: string) returns (r: Outcome)
    requires '\0' !in date
    ensures r == ParseRest(date)
  {
    hide Evaluate, FitsChar, Each, Fits;
    StarFree();
    hide RFC1123, RFC850, ASCTIME, RFC1123_SHORT;
    FitsOpenMask(date, RFC1123);
    FitsOpenMask(date, RFC850);
    FitsOpenMask(date, ASCTIME);
    FitsOpenMask(date, RFC1123_SHORT);
    var ok := IsDateMask(date, RFC1123 + "*");
    if ok {
      r := FromRfc1123(date);
    } else {
      ok := IsDateMask(date, RFC850 + "*");
      if ok {
        r := FromRfc850(date);
      } else {
        ok := IsDateMask(date, ASCTIME + "*");
        if ok {
          r := FromAsctime(date);
        } else {
          ok := IsDateMask(date, RFC1123_SHORT + "*");
          if ok { r := FromShort(date); } else { r := Rejected; }
        }
      }
    }
  }

  method FromRfc1123(date: string) returns (r: Outcome)
    requires Each(date, RFC1123)
    ensures r == ParseRest(date)
  {
    hide Evaluate, FitsChar, Each;
    EachRfc1123(date);
    var year := (Num(date, 7) - 19) * 100;
    if year < 0 {
      EarlyYear();
      return Rejected;
    }
    year := year + Num(date, 9);
    r := CheckAndConvert(year, date[3..6], Num(date, 0), Num(date, 12), Num(date, 15), Num(date, 18));
  }

  method FromRfc850(date: string) returns (r: Outcome)
    requires !Each(date, RFC1123) && Each(date, RFC850)
    ensures r == ParseRest(date)
  {
    hide Evaluate, FitsChar, Each;
    EachRfc850(date);
    var year := Num(date, 7);
    if year < 70 { year := year + 100; }
    r := CheckAndConvert(year, date[3..6], Num(date, 0), Num(date, 10), Num(date, 13), Num(date, 16));
  }

  method FromAsctime(date: string) returns (r: Outcome)
    requires !Each(date, RFC1123) && !Each(date, RFC850) && Each(date, ASCTIME)
    ensures r == ParseRest(date)
  {
    hide Evaluate, FitsChar, Each;
    EachAsctime(date);
    var year := (Num(date, 16) - 19) * 100;
    if year < 0 {
      EarlyYear();
      return Rejected;
    }
    year := year + Num(date, 18);
    var day := 0;
    if date[4] != ' ' { day := Digit(date[4]) * 10; }
    day := day + Digit(date[5]);
    r := CheckAndConvert(year, date[..3], day, Num(date, 7), Num(date, 10), Num(date, 13));
  }

  method FromShort(date: string) returns (r: Outcome)
    requires !Each(date, RFC1123) && !Each(date, RFC850) && !Each(date, ASCTIME) && Each(date, RFC1123_SHORT)
    ensures r == ParseRest(date)
  {
    hide Evaluate, FitsChar, Each;
    EachShort(date);
    var year := (Num(date, 6) - 19) * 100;
    if year < 0 {
      EarlyYear();
      return Rejected;
    }
    year := year + Num(date, 8);
    r := CheckAndConvert(year, date[2..5], Digit(date[0]), Num(date, 11), Num(date, 14), Num(date, 17));
  }

  lemma {:induction false} EarlyYear()
    ensures forall year, month, day, hour, min, sec :: year < 1900 ==> Evaluate(year, month, day, hour, min, sec) == Rejected
  {}

  predicate TwoDigits(s: string, i: nat) {
    i + 1 < |s| && IsDigit(s[i]) && IsDigit(s[i + 1]) && 0 <= Num(s, i) <= 99
  }

  predicate MonthAt(s: string, i: nat) {
    i + 2 < |s| && IsUpper(s[i]) && IsLower(s[i + 1]) && IsLower(s[i + 2])
  }

  lemma {:induction false} DigitsAt(s: string, mask: string, i: nat)
    requires Each(s, mask) && i + 1 < |mask| && mask[i] == '#' && mask[i + 1] == '#'
    ensures TwoDigits(s, i)
  {
    assert FitsChar(s[i], mask[i]) && FitsChar(s[i + 1], mask[i + 1]);
  }

  lemma {:induction false} LettersAt(s: string, mask: string, i: nat)
    requires Each(s, mask) && i + 2 < |mask| && mask[i] == '@' && mask[i + 1] == '$' && mask[i + 2] == '$'
    ensures MonthAt(s, i)
  {
    assert FitsChar(s[i], mask[i]) && FitsChar(s[i + 1], mask[i + 1]) && FitsChar(s[i + 2], mask[i + 2]);
  }

  lemma {:induction false} EachRfc1123(s: string)
    requires Each(s, RFC1123)
    ensures |s| >= 21 && TwoDigits(s, 0) && MonthAt(s, 3) && TwoDigits(s, 7) && TwoDigits(s, 9)
    ensures TwoDigits(s, 12) && TwoDigits(s, 15) && TwoDigits(s, 18)
  {
    assert |RFC1123| == 21;
    DigitsAt(s, RFC1123, 0);
    LettersAt(s, RFC1123, 3);
    DigitsAt(s, RFC1123, 7);
    DigitsAt(s, RFC1123, 9);
    DigitsAt(s, RFC1123, 12);
    DigitsAt(s, RFC1123, 15);
    DigitsAt(s, RFC1123, 18);
  }

  lemma {:induction false} EachRfc850(s: string)
    requires Each(s, RFC850)
    ensures |s| >= 19 && TwoDigits(s, 0) && MonthAt(s, 3) && TwoDigits(s, 7)
    ensures TwoDigits(s, 10) && TwoDigits(s, 13) && TwoDigits(s, 16)
  {
    assert |RFC850| == 19;
    DigitsAt(s, RFC850, 0);
    LettersAt(s, RFC850, 3);
    DigitsAt(s, RFC850, 7);
    DigitsAt(s, RFC850, 10);
    DigitsAt(s, RFC850, 13);
    DigitsAt(s, RFC850, 16);
  }

  lemma {:induction false} EachAsctime(s: string)
    requires Each(s, ASCTIME)
    ensures |s| >= 20 && MonthAt(s, 0) && (s[4] == ' ' || IsDigit(s[4])) && IsDigit(s[5])
    ensures TwoDigits(s, 7) && TwoDigits(s, 10) && TwoDigits(s, 13) && TwoDigits(s, 16) && TwoDigits(s, 18)
  {
    assert |ASCTIME| == 20;
    LettersAt(s, ASCTIME, 0);
    assert FitsChar(s[4], ASCTIME[4]) && FitsChar(s[5], ASCTIME[5]);
    DigitsAt(s, ASCTIME, 7);
    DigitsAt(s, ASCTIME, 10);
    DigitsAt(s, ASCTIME, 13);
    DigitsAt(s, ASCTIME, 16);
    DigitsAt(s, ASCTIME, 18);
  }

  lemma {:induction false} EachShort(s: string)
    requires Each(s, RFC1123_SHORT)
    ensures |s| >= 20 && IsDigit(s[0]) && MonthAt(s, 2) && TwoDigits(s, 6) && TwoDigits(s, 8)
    ensures TwoDigits(s, 11) && TwoDigits(s, 14) && TwoDigits(s, 17)
  {
    assert |RFC1123_SHORT| == 20;
    assert FitsChar(s[0], RFC1123_SHORT[0]);
    LettersAt(s, RFC1123_SHORT, 2);
    DigitsAt(s, RFC1123_SHORT, 6);
    DigitsAt(s, RFC1123_SHORT, 8);
    DigitsAt(s, RFC1123_SHORT, 11);
    DigitsAt(s, RFC1123_SHORT, 14);
    DigitsAt(s, RFC1123_SHORT, 17);
  }

  // ------------------------------------------------------------ spelled dates

  /** n as two digits. */
  function Tens(n: nat): (c: char)
    requires n < 100
    ensures IsDigit(c) && Digit(c) == n / 10
  {
    Inet.DigitChar(n / 10)
  }

  function Ones(n: nat): (c: char)
    ensures IsDigit(c) && Digit(c) == n % 10
  {
    Inet.DigitChar(n % 10)
  }

  predicate MonthName(m: string) {
    |m| == 3 && MonthAt(m, 0)
  }

  /** "06 Nov 1994 08:49:37 " */
  function SpellRfc1123(year: nat, m: string, day: nat, hour: nat, min: nat, sec: nat): (s: string)
    requires year < 10000 && MonthName(m) && day < 100 && hour < 100 && min < 100 && sec < 100
  {
    [Tens(day), Ones(day), ' ', m[0], m[1], m[2], ' ', Tens(year / 100), Ones(year / 100), Tens(year % 100), Ones(year % 100),
     ' ', Tens(hour), Ones(hour), ':', Tens(min), Ones(min), ':', Tens(sec), Ones(sec), ' ']
  }

  lemma {:induction false} Rfc1123Fits(year: nat, m: string, day: nat, hour: nat, min: nat, sec: nat, tail: string)
    requires year < 10000 && MonthName(m) && day < 100 && hour < 100 && min < 100 && sec < 100
    ensures Each(SpellRfc1123(year, m, day, hour, min, sec) + tail, RFC1123)
  {
    hide Tens, Ones;
    var s := SpellRfc1123(year, m, day, hour, min, sec) + tail;
    forall i | 0 <= i < |RFC1123| ensures FitsChar(s[i], RFC1123[i]) {}
  }

  lemma {:induction false} ReadRfc1123(year: nat, m: string, day: nat, hour: nat, min: nat, sec: nat, tail: string)
    requires year < 10000 && MonthName(m) && day < 100 && hour < 100 && min < 100 && sec < 100
    ensures ParseRest(SpellRfc1123(year, m, day, hour, min, sec) + tail) == Evaluate(year, m, day, hour, min, sec)
  {
    hide Evaluate, Each, Tens, Ones, FitsChar;
    Rfc1123Fits(year, m, day, hour, min, sec, tail);
    var s := SpellRfc1123(year, m, day, hour, min, sec) + tail;
    assert s[3..6] == m;
  }

  /** "06-Nov-94 08:49:37 ", for the years 1970 to 2069 */
  function SpellRfc850(year: nat, m: string, day: nat, hour: nat, min: nat, sec: nat): (s: string)
    requires MonthName(m) && day < 100 && hour < 100 && min < 100 && sec < 100
  {
    [Tens(day), Ones(day), '-', m[0], m[1], m[2], '-', Tens(year % 100), Ones(year % 100),
     ' ', Tens(hour), Ones(hour), ':', Tens(min), Ones(min), ':', Tens(sec), Ones(sec), ' ']
  }

  lemma {:induction false} Rfc850Fits(year: nat, m: string, day: nat, hour: nat, min: nat, sec: nat, tail: string)
    requires 1970 <= year <= 2069 && MonthName(m) && day < 100 && hour < 100 && min < 100 && sec < 100
    ensures Each(SpellRfc850(year, m, day, hour, min, sec) + tail, RFC850)
    ensures !Each(SpellRfc850(year, m, day, hour, min, sec) + tail, RFC1123)
  {
    hide Tens, Ones;
    var s := SpellRfc850(year, m, day, hour, min, sec) + tail;
    forall i | 0 <= i < |RFC850| ensures FitsChar(s[i], RFC850[i]) {}
    assert !FitsChar(s[2], RFC1123[2]);
  }

  lemma {:induction false} ReadRfc850(year: nat, m: string, day: nat, hour: nat, min: nat, sec: nat, tail: string)
    requires 1970 <= year <= 2069 && MonthName(m) && day < 100 && hour < 100 && min < 100 && sec < 100
    ensures ParseRest(SpellRfc850(year, m, day, hour, min, sec) + tail) == Evaluate(year, m, day, hour, min, sec)
  {
    hide Evaluate, Each, Tens, Ones, FitsChar;
    Rfc850Fits(year, m, day, hour, min, sec, tail);
    var s := SpellRfc850(year, m, day, hour, min, sec) + tail;
    assert s[3..6] == m;
  }

  /** "Nov  6 08:49:37 1994" */
  function SpellAsctime(year: nat, m: string, day: nat, hour: nat, min: nat, sec: nat): (s: string)
    requires year < 10000 && MonthName(m) && day < 100 && hour < 100 && min < 100 && sec < 100
  {
    [m[0], m[1], m[2], ' ', if day < 10 then ' ' else Tens(day), Ones(day),
     ' ', Tens(hour), Ones(hour), ':', Tens(min), Ones(min), ':', Tens(sec), Ones(sec),
     ' ', Tens(year / 100), Ones(year / 100), Tens(year % 100), Ones(year % 100)]
  }

  lemma {:induction false} AsctimeFits(year: nat, m: string, day: nat, hour: nat, min: nat, sec: nat, tail: string)
    requires year < 10000 && MonthName(m) && day < 100 && hour < 100 && min < 100 && sec < 100
    ensures Each(SpellAsctime(year, m, day, hour, min, sec) + tail, ASCTIME)
    ensures !Each(SpellAsctime(year, m, day, hour, min, sec) + tail, RFC1123)
    ensures !Each(SpellAsctime(year, m, day, hour, min, sec) + tail, RFC850)
  {
    hide Tens, Ones;
    var s := SpellAsctime(year, m, day, hour, min, sec) + tail;
    forall i | 0 <= i < |ASCTIME| ensures FitsChar(s[i], ASCTIME[i]) {}
    assert !FitsChar(s[0], RFC1123[0]);
    assert !FitsChar(s[0], RFC850[0]);
  }

  lemma {:induction false} ReadAsctime(year: nat, m: string, day: nat, hour: nat, min: nat, sec: nat, tail: string)
    requires year < 10000 && MonthName(m) && day < 100 && hour < 100 && min < 100 && sec < 100
    ensures ParseRest(SpellAsctime(year, m, day, hour, min, sec) + tail) == Evaluate(year, m, day, hour, min, sec)
  {
    hide Evaluate, Each, Tens, Ones, FitsChar;
    AsctimeFits(year, m, day, hour, min, sec, tail);
    var s := SpellAsctime(year, m, day, hour, min, sec) + tail;
    assert s[..3] == m;
  }

  /** "6 Nov 1994 08:49:37 " */
  function SpellShort(year: nat, m: string, day: nat, hour: nat, min: nat, sec: nat): (s: string)
    requires year < 10000 && MonthName(m) && day < 10 && hour < 100 && min < 100 && sec < 100
  {
    [Ones(day), ' ', m[0], m[1], m[2], ' ', Tens(year / 100), Ones(year / 100), Tens(year % 100), Ones(year % 100),
     ' ', Tens(hour), Ones(hour), ':', Tens(min), Ones(min), ':', Tens(sec), Ones(sec), ' ']
  }

  lemma {:induction false} ShortFits(year: nat, m: string, day: nat, hour: nat, min: nat, sec: nat, tail: string)
    requires year < 10000 && MonthName(m) && day < 10 && hour < 100 && min < 100 && sec < 100
    ensures Each(SpellShort(year, m, day, hour, min, sec) + tail, RFC1123_SHORT)
    ensures !Each(SpellShort(year, m, day, hour, min, sec) + tail, RFC1123)
    ensures !Each(SpellShort(year, m, day, hour, min, sec) + tail, RFC850)
    ensures !Each(SpellShort(year, m, day, hour, min, sec) + tail, ASCTIME)
  {
    hide Tens, Ones;
    var s := SpellShort(year, m, day, hour, min, sec) + tail;
    forall i | 0 <= i < |RFC1123_SHORT| ensures FitsChar(s[i], RFC1123_SHORT[i]) {}
    assert !FitsChar(s[1], RFC1123[1]);
    assert !FitsChar(s[1], RFC850[1]);
    assert !FitsChar(s[0], ASCTIME[0]);
  }

  lemma {:induction false} ReadShort(year: nat, m: string, day: nat, hour: nat, min: nat, sec: nat, tail: string)
    requires year < 10000 && MonthName(m) && day < 10 && hour < 100 && min < 100 && sec < 100
    ensures ParseRest(SpellShort(year, m, day, hour, min, sec) + tail) == Evaluate(year, m, day, hour, min, sec)
  {
    hide Evaluate, Each, Tens, Ones, FitsChar;
    ShortFits(year, m, day, hour, min, sec, tail);
    var s := SpellShort(year, m, day, hour, min, sec) + tail;
    assert s[2..5] == m;
  }

  /** The word before the date: neither starting with white space nor holding a blank. */
  predicate IsWord(w: string) {
    w != "" && !IsSpace(w[0]) && ' ' !in w
  }

  lemma {:induction false} AfterWord(w: string, rest: string)
    requires ' ' !in w
    ensures AfterBlank(w + " " + rest) == Some(rest)
  {
    var s := w + " " + rest;
    if w == "" {
      assert s[1..] == rest;
    } else {
      AfterWord(w[1..], rest);
      assert s[1..] == w[1..] + " " + rest;
    }
  }

  lemma {:induction false} ParseWord(w: string, rest: string)
    requires IsWord(w)
    ensures Parse(w + " " + rest) == ParseRest(rest)
  {
    hide ParseRest;
    AfterWord(w, rest);
    assert (w + " " + rest)[0] == w[0];
    assert SkipSpaces(w + " " + rest) == w + " " + rest;
  }

  /**
   * The spellings of RFC 1123, RFC 850 and asctime of one instant all parse to the same
   * result, the one the calendar gives.
   */
  lemma {:induction false} SpellingsAgree(w: string, s: Stamp, tail: string)
    requires IsWord(w) && Valid(s) && 1970 <= s.year <= 2069
    ensures MonthName(MONTHS[s.mon])
    ensures var m, r := MONTHS[s.mon], Judge(SecondsOf(s), s.sec);
      && Parse(w + " " + (SpellRfc1123(s.year, m, s.day, s.hour, s.min, s.sec) + tail)) == r
      && Parse(w + " " + (SpellRfc850(s.year, m, s.day, s.hour, s.min, s.sec) + tail)) == r
      && Parse(w + " " + (SpellAsctime(s.year, m, s.day, s.hour, s.min, s.sec) + tail)) == r
      && (s.day < 10 ==> Parse(w + " " + (SpellShort(s.year, m, s.day, s.hour, s.min, s.sec) + tail)) == r)
  {
    hide ParseRest, Judge, SecondsOf, Parse, SpellRfc1123, SpellRfc850, SpellAsctime, SpellShort, MONTHS;
    MonthFound(s.mon);
    var m := MONTHS[s.mon];
    ReadRfc1123(s.year, m, s.day, s.hour, s.min, s.sec, tail);
    ReadRfc850(s.year, m, s.day, s.hour, s.min, s.sec, tail);
    ReadAsctime(s.year, m, s.day, s.hour, s.min, s.sec, tail);
    ParseWord(w, SpellRfc1123(s.year, m, s.day, s.hour, s.min, s.sec) + tail);
    ParseWord(w, SpellRfc850(s.year, m, s.day, s.hour, s.min, s.sec) + tail);
    ParseWord(w, SpellAsctime(s.year, m, s.day, s.hour, s.min, s.sec) + tail);
    if s.day < 10 {
      ReadShort(s.year, m, s.day, s.hour, s.min, s.sec, tail);
      ParseWord(w, SpellShort(s.year, m, s.day, s.hour, s.min, s.sec) + tail);
    }
  }

  lemma {:induction false} MonthFound(mon: nat)
    requires mon < 12
    ensures |MONTHS| == 12 && MonthName(MONTHS[mon]) && FindMonth(MONTHS[mon], 0) == Some(mon)
  {
    MonthsDiffer();
    assert MonthName(MONTHS[mon]);
  }

  lemma {:induction false} MonthsDiffer()
    ensures forall i, j :: 0 <= i < j < 12 ==> MONTHS[i] != MONTHS[j]
  {
    assert MONTHS[0][0] == 'J' && MONTHS[5][1] == 'u';
  }

  /** From 1970 to 2037 every date fits; the last second that does is 2038-01-19T03:14:07. */
  lemma {:induction false} YearsThatFit(s: Stamp)
    requires Valid(s) && 1970 <= s.year <= 2037
    ensures SecondsOf(s) >= 0 && Judge(SecondsOf(s), s.sec) == Seconds(SecondsOf(s))
  {
    hide YearStart, MonthStart, MonthLength, YearLength, MarchDays;
    StartIsZero();
    YearStartMonotone(1970, s.year);
    MonthStartMonotone(s.year, s.mon + 1, 12);
    MonthStarts(s.year);
    YearStartNext(s.year);
    YearStartMonotone(s.year + 1, 2038);
    StartOf2038();
    MonthStartNext(s.year, s.mon);
    assert 0 <= DayNumber(s.year, s.mon, s.day) < 24837;
  }

  lemma {:induction false} MonthStartNext(year: int, mon: nat)
    ensures MonthStart(year, mon + 1) == MonthStart(year, mon) + MonthLength(year, mon)
  {}

  lemma {:induction false} StartOf2038()
    ensures YearStart(2038) == 24837
  {
    MarchDaysCorrect(2038);
    hide YearStart;
  }

  lemma {:induction false} LastSecond()
    ensures SecondsOf(Stamp(2038, 0, 19, 3, 14, 7)) == INT_MAX
  {
    StartOf2038();
    MonthStartZero(2038);
    hide YearStart, MonthStart;
  }

  lemma {:induction false} FirstMinute()
    ensures MinutesOf(FIRST) * 60 == INT_MIN + 8
  {
    StartOf1901();
    MonthStarts(1901);
    hide YearStart, MonthStart;
    assert !IsLeap(1901);
  }

  lemma {:induction false} LastMinute()
    ensures MinutesOf(LAST) * 60 + 7 == INT_MAX
  {
    LastSecond();
    hide DayNumber;
  }

  /** The first minute and the last second that fit. */
  const FIRST := Stamp(1901, 11, 13, 20, 46, 0)
  const LAST := Stamp(2038, 0, 19, 3, 14, 7)

  /**
   * The dates of the calendar that overflow: those before 1901-12-13T20:46 and those after
   * 2038-01-19T03:14:07.
   */
  lemma {:induction false} OverflowExact(s: Stamp)
    requires Valid(s)
    ensures Judge(SecondsOf(s), s.sec) == Overflow <==>
              || EarlierMinute(s, FIRST)
              || EarlierMinute(LAST, s)
              || (!EarlierMinute(s, LAST) && s.sec > LAST.sec)
  {
    FirstMinute();
    LastMinute();
    MinuteOrder(s, FIRST);
    MinuteOrder(LAST, s);
    MinuteOrder(s, LAST);
    hide DayNumber, MonthLength, EarlierMinute;
    assert SecondsOf(s) == MinutesOf(s) * 60 + s.sec;
  }

  lemma {:induction false} StartOf1901()
    ensures YearStart(1901) == -25202
  {
    MarchDaysCorrect(1901);
    hide YearStart;
  }

  // ------------------------------------------------------- getDateStringRfc822

  const WEEK_DAYS := ["Sun", "Mon", "Tue", "Wed", "Thu", "Fri", "Sat"]

  /** The date of a time from 1970 on, in years of four digits. */
  function DateText(t: nat): (s: string)
    requires GmTime(t).year < 10000
  {
    GmTimeCorrect(t);
    MonthFound(GmTime(t).mon);
    var s := GmTime(t);
    WEEK_DAYS[Weekday(t)] + "," + " " + (SpellRfc1123(s.year, MONTHS[s.mon], s.day, s.hour, s.min, s.sec) + "GMT")
  }

  /** Reading back the date of a 32-bit time gives the time. */
  lemma {:induction false} DateRoundTrip(t: nat)
    requires t < 0x8000_0000
    ensures GmTime(t).year < 10000
    ensures Parse(DateText(t)) == Seconds(t)
  {
    hide Parse, SecondsOf, GmTime, SpellRfc1123, MONTHS, Weekday;
    GmTimeYears(t);
    GmTimeCorrect(t);
    var s := GmTime(t);
    WeekdayWord(Weekday(t));
    SpellingsAgree(WEEK_DAYS[Weekday(t)] + ",", s, "GMT");
  }

  // --------------------------------------------------------- any fields at all

  /** Blanks in front of a date are skipped. */
  lemma {:induction false} LeadingSpaces(blanks: string, s: string)
    requires forall i :: 0 <= i < |blanks| ==> IsSpace(blanks[i])
    ensures Parse(blanks + s) == Parse(s)
  {
    SkipsBlanks(blanks, s);
    hide ParseRest;
  }

  lemma {:induction false} SkipsBlanks(blanks: string, s: string)
    requires forall i :: 0 <= i < |blanks| ==> IsSpace(blanks[i])
    ensures SkipSpaces(blanks + s) == SkipSpaces(s)
  {
    if blanks == "" {
      assert blanks + s == s;
    } else {
      assert (blanks + s)[1..] == blanks[1..] + s;
      SkipsBlanks(blanks[1..], s);
    }
  }

  /** What a date of these fields is: none before 1900 and none that the calendar does not have. */
  function Told(s: Stamp): (r: Outcome) {
    if s.year >= 1900 && Valid(s) then Judge(SecondsOf(s), s.sec) else Rejected
  }

  lemma {:induction false} EvaluateTold(s: Stamp)
    requires 0 <= s.mon < 12
    ensures MonthName(MONTHS[s.mon])
    ensures Evaluate(s.year, MONTHS[s.mon], s.day, s.hour, s.min, s.sec) == Told(s)
  {
    MonthFound(s.mon);
    hide MONTHS, FindMonth, SecondsOf, Judge;
  }

  /** The spellings with four-digit years, for all fields of two digits, sensible or not. */
  lemma {:induction false} AnyFields(w: string, s: Stamp, tail: string)
    requires IsWord(w) && 0 <= s.year < 10000 && 0 <= s.mon < 12
    requires 0 <= s.day < 100 && 0 <= s.hour < 100 && 0 <= s.min < 100 && 0 <= s.sec < 100
    ensures MonthName(MONTHS[s.mon])
    ensures var m := MONTHS[s.mon];
      && Parse(w + " " + (SpellRfc1123(s.year, m, s.day, s.hour, s.min, s.sec) + tail)) == Told(s)
      && Parse(w + " " + (SpellAsctime(s.year, m, s.day, s.hour, s.min, s.sec) + tail)) == Told(s)
  {
    hide MONTHS, Told, Evaluate, ParseRest, SpellRfc1123, SpellAsctime, IsWord, MonthName;
    MonthFound(s.mon);
    EvaluateTold(s);
    var m := MONTHS[s.mon];
    ReadRfc1123(s.year, m, s.day, s.hour, s.min, s.sec, tail);
    ReadAsctime(s.year, m, s.day, s.hour, s.min, s.sec, tail);
    ParseWord(w, SpellRfc1123(s.year, m, s.day, s.hour, s.min, s.sec) + tail);
    ParseWord(w, SpellAsctime(s.year, m, s.day, s.hour, s.min, s.sec) + tail);
  }

  // ------------------------------------------------------ dates as published

  /** The weekday is Thursday on the first day, and moves on by one each day. */
  lemma {:induction false} WeekdaySteps(t: nat)
    ensures t < 86400 ==> WEEK_DAYS[Weekday(t)] == "Thu"
    ensures Weekday(t + 86400) == (Weekday(t) + 1) % 7
    ensures WEEK_DAYS == ["Sun", "Mon", "Tue", "Wed", "Thu", "Fri", "Sat"]
  {
    assert (t + 86400) / 86400 == t / 86400 + 1;
  }

  /** The months by their names. */
  lemma {:induction false} MonthNames()
    ensures FindMonth("Jan", 0) == Some(0) && FindMonth("Feb", 0) == Some(1) && FindMonth("Mar", 0) == Some(2)
    ensures FindMonth("Apr", 0) == Some(3) && FindMonth("May", 0) == Some(4) && FindMonth("Jun", 0) == Some(5)
    ensures FindMonth("Jul", 0) == Some(6) && FindMonth("Aug", 0) == Some(7) && FindMonth("Sep", 0) == Some(8)
    ensures FindMonth("Oct", 0) == Some(9) && FindMonth("Nov", 0) == Some(10) && FindMonth("Dec", 0) == Some(11)
  {
    assert MONTHS == ["Jan", "Feb", "Mar", "Apr", "May", "Jun", "Jul", "Aug", "Sep", "Oct", "Nov", "Dec"];
    hide FindMonth;
    MonthFound(0); MonthFound(1); MonthFound(2); MonthFound(3); MonthFound(4); MonthFound(5);
    MonthFound(6); MonthFound(7); MonthFound(8); MonthFound(9); MonthFound(10); MonthFound(11);
  }

  const PUBLISHED := Stamp(1994, 10, 6, 8, 49, 37)

  lemma {:induction false} PublishedSeconds()
    ensures Valid(PUBLISHED) && SecondsOf(PUBLISHED) == 784111777
  {
    MarchDaysCorrect(1994);
    MonthStarts(1994);
    hide YearStart, MonthStart;
  }

  lemma {:induction false} PublishedWords()
    ensures MonthName("Nov") && IsWord("Sun,") && IsWord("Sunday,") && IsWord("Sun")
  {
    assert MonthAt("Nov", 0);
  }

  lemma {:induction false} Published1123()
    requires MonthName("Nov")
    ensures SpellRfc1123(1994, "Nov", 6, 8, 49, 37) == "06 Nov 1994 08:49:37 "
  {}

  lemma {:induction false} Published850()
    requires MonthName("Nov")
    ensures SpellRfc850(1994, "Nov", 6, 8, 49, 37) == "06-Nov-94 08:49:37 "
  {}

  lemma {:induction false} PublishedAsctime()
    requires MonthName("Nov")
    ensures SpellAsctime(1994, "Nov", 6, 8, 49, 37) == "Nov  6 08:49:37 1994"
  {}

  lemma {:induction false} PublishedDay()
    ensures WEEK_DAYS[Weekday(784111777)] == "Sun" && MONTHS[PUBLISHED.mon] == "Nov"
  {}

  lemma {:induction false} ReadText()
    ensures "Sun," + " " + ("06 Nov 1994 08:49:37 " + "GMT") == "Sun, 06 Nov 1994 08:49:37 GMT"
  {}

  lemma {:induction false} WrittenText()
    ensures "Sun" + "," + " " + ("06 Nov 1994 08:49:37 " + "GMT") == "Sun, 06 Nov 1994 08:49:37 GMT"
  {}

  lemma {:induction false} OlderText()
    ensures "Sunday," + " " + ("06-Nov-94 08:49:37 " + "GMT") == "Sunday, 06-Nov-94 08:49:37 GMT"
  {}

  lemma {:induction false} OldestText()
    ensures "Sun" + " " + ("Nov  6 08:49:37 1994" + "") == "Sun Nov  6 08:49:37 1994"
  {}

  /** The date of section 7.1.1.1 of RFC 7231, read in its three spellings. */
  lemma {:induction false} PublishedRead()
    ensures Parse("Sun, 06 Nov 1994 08:49:37 GMT") == Seconds(784111777)
    ensures Parse("Sunday, 06-Nov-94 08:49:37 GMT") == Seconds(784111777)
    ensures Parse("Sun Nov  6 08:49:37 1994") == Seconds(784111777)
  {
    hide *;
    PublishedSeconds();
    PublishedWords();
    Published1123();
    Published850();
    PublishedAsctime();
    PublishedDay();
    ReadText();
    OlderText();
    OldestText();
    PublishedYear();
    YearsThatFit(PUBLISHED);
    SpellingsAgree("Sun,", PUBLISHED, "GMT");
    SpellingsAgree("Sunday,", PUBLISHED, "GMT");
    SpellingsAgree("Sun", PUBLISHED, "");
  }

  lemma {:induction false} PublishedYear()
    ensures PUBLISHED == Stamp(1994, 10, 6, 8, 49, 37)
  {}

  /** And written. */
  lemma {:induction false} PublishedWritten()
    ensures GmTime(784111777) == PUBLISHED && DateText(784111777) == "Sun, 06 Nov 1994 08:49:37 GMT"
  {
    hide GmTime, SecondsOf, SpellRfc1123, MONTHS, WEEK_DAYS, Weekday, MonthName;
    PublishedSeconds();
    GmTimeCorrect(784111777);
    SecondsInjective(GmTime(784111777), PUBLISHED);
    PublishedWords();
    Published1123();
    PublishedDay();
    WrittenText();
  }

  lemma {:induction false} WeekdayWord(d: nat)
    requires d < 7
    ensures |WEEK_DAYS| == 7 && |WEEK_DAYS[d]| == 3 && IsWord(WEEK_DAYS[d] + ",") && '\0' !in WEEK_DAYS[d]
  {}

  /** Writes characters through an advancing pointer. */
  method Write(buf: array<char>, p: nat, s: string) returns (q: nat)
    requires p + |s| <= buf.Length && |s| <= 3
    modifies buf
    ensures q == p + |s| && buf[..q] == old(buf[..p]) + s
  {
    q := p;
    if |s| > 0 { buf[q] := s[0]; q := q + 1; }
    if |s| > 1 { buf[q] := s[1]; q := q + 1; }
    if |s| > 2 { buf[q] := s[2]; q := q + 1; }
  }

  /** Weekday, day, month and year as the writer puts them. */
  function DayPart(wday: string, mon: string, tm: Stamp): (s: string)
    requires 0 <= tm.year < 10000 && 0 <= tm.day < 100
  {
    wday + ", " + [Tens(tm.day), Ones(tm.day), ' '] + mon + " "
    + [Inet.DigitChar(tm.year / 1000), Inet.DigitChar(tm.year % 1000 / 100)]
    + [Inet.DigitChar(tm.year % 100 / 10), Inet.DigitChar(tm.year % 10)]
  }

  /** Time of day and zone. */
  function ClockPart(tm: Stamp): (s: string)
    requires 0 <= tm.hour < 100 && 0 <= tm.min < 100 && 0 <= tm.sec < 100
  {
    [' ', Tens(tm.hour), Ones(tm.hour)] + [':', Tens(tm.min), Ones(tm.min)] + [':', Tens(tm.sec), Ones(tm.sec)] + " " + "GMT"
  }

  lemma {:induction false} DayFlat(w: string, m: string, tm: Stamp)
    requires 0 <= tm.year < 10000 && 0 <= tm.day < 100 && |w| == 3 && |m| == 3
    ensures DayPart(w, m, tm) == [w[0], w[1], w[2], ',', ' ', Tens(tm.day), Ones(tm.day), ' ', m[0], m[1], m[2], ' ',
      Tens(tm.year / 100), Ones(tm.year / 100), Tens(tm.year % 100), Ones(tm.year % 100)]
  {
    YearDigits(tm.year);
    hide Tens, Ones, Inet.DigitChar;
  }

  lemma {:induction false} ClockFlat(tm: Stamp)
    requires 0 <= tm.hour < 100 && 0 <= tm.min < 100 && 0 <= tm.sec < 100
    ensures ClockPart(tm) == [' ', Tens(tm.hour), Ones(tm.hour), ':', Tens(tm.min), Ones(tm.min), ':', Tens(tm.sec), Ones(tm.sec),
                              ' ', 'G', 'M', 'T']
  {
    hide Tens, Ones;
  }

  lemma {:induction false} PartsMakeDate(wday: string, mon: string, tm: Stamp)
    requires 0 <= tm.year < 10000 && 0 <= tm.day < 100 && 0 <= tm.hour < 100 && 0 <= tm.min < 100 && 0 <= tm.sec < 100
    requires |wday| == 3 && MonthName(mon) && '\0' !in wday
    ensures var s := wday + "," + " " + (SpellRfc1123(tm.year, mon, tm.day, tm.hour, tm.min, tm.sec) + "GMT");
      DayPart(wday, mon, tm) + ClockPart(tm) == s && |s| == 29 && '\0' !in s
  {
    DayFlat(wday, mon, tm);
    ClockFlat(tm);
    hide Tens, Ones, DayPart, ClockPart;
  }

  lemma {:induction false} DateAssembled(t: nat)
    requires GmTime(t).year < 10000
    ensures var tm := GmTime(t);
      && tm.year >= 1970 && Valid(tm) && |MONTHS| == 12 && |WEEK_DAYS| == 7
      && |MONTHS[tm.mon]| == 3 && |WEEK_DAYS[Weekday(t)]| == 3
      && DayPart(WEEK_DAYS[Weekday(t)], MONTHS[tm.mon], tm) + ClockPart(tm) == DateText(t)
    ensures |DateText(t)| == 29 && '\0' !in DateText(t)
  {
    hide GmTime, Weekday, MONTHS, WEEK_DAYS, MonthLength, MonthName, DayPart, ClockPart, SpellRfc1123, IsWord;
    GmTimeCorrect(t);
    MonthFound(GmTime(t).mon);
    MonthNameLength(MONTHS[GmTime(t).mon]);
    WeekdayWord(Weekday(t));
    PartsMakeDate(WEEK_DAYS[Weekday(t)], MONTHS[GmTime(t).mon], GmTime(t));
  }

  lemma {:induction false} MonthNameLength(m: string)
    requires MonthName(m)
    ensures |m| == 3
  {}

  lemma {:induction false} YearDigits(year: nat)
    requires year < 10000
    ensures Tens(year / 100) == Inet.DigitChar(year / 1000) && Ones(year / 100) == Inet.DigitChar(year % 1000 / 100)
    ensures Tens(year % 100) == Inet.DigitChar(year % 100 / 10) && Ones(year % 100) == Inet.DigitChar(year % 10)
  {
    HundredThenTen(year);
    HundredThenOne(year);
    HundredRest(year);
  }

  lemma {:induction false} HundredThenTen(n: nat)
    ensures n / 100 / 10 == n / 1000
  {}

  lemma {:induction false} HundredThenOne(n: nat)
    ensures n / 100 % 10 == n % 1000 / 100
  {
    var q, r := n / 1000, n % 1000;
    assert n / 100 == 10 * q + r / 100;
  }

  lemma {:induction false} HundredRest(n: nat)
    ensures n % 100 % 10 == n % 10
  {
    assert n == 10 * (10 * (n / 100)) + n % 100;
  }

  method WriteDay(buf: array<char>, p: nat, wday: string, mon: string, tm: Stamp) returns (q: nat)
    requires 0 <= tm.year < 10000 && 0 <= tm.day < 100 && |wday| == |mon| == 3 && p + 16 <= buf.Length
    modifies buf
    ensures q == p + 16 && buf[..q] == old(buf[..p]) + DayPart(wday, mon, tm)
  {
    hide Tens, Ones, Inet.DigitChar;
    q := p;
    q := Write(buf, q, wday);
    q := Write(buf, q, ", ");
    q := Write(buf, q, [Tens(tm.day), Ones(tm.day), ' ']);
    q := Write(buf, q, mon);
    q := Write(buf, q, " ");
    q := Write(buf, q, [Inet.DigitChar(tm.year / 1000), Inet.DigitChar(tm.year % 1000 / 100)]);
    q := Write(buf, q, [Inet.DigitChar(tm.year % 100 / 10), Inet.DigitChar(tm.year % 10)]);
  }

  method WriteClock(buf: array<char>, p: nat, tm: Stamp) returns (q: nat)
    requires 0 <= tm.hour < 100 && 0 <= tm.min < 100 && 0 <= tm.sec < 100 && p + 13 <= buf.Length
    modifies buf
    ensures q == p + 13 && buf[..q] == old(buf[..p]) + ClockPart(tm)
  {
    hide Tens, Ones;
    q := p;
    q := Write(buf, q, [' ', Tens(tm.hour), Ones(tm.hour)]);
    q := Write(buf, q, [':', Tens(tm.min), Ones(tm.min)]);
    q := Write(buf, q, [':', Tens(tm.sec), Ones(tm.sec)]);
    q := Write(buf, q, " ");
    q := Write(buf, q, "GMT");
  }

  /**
   * Time::getDateStringRfc822 with the GMT offset 0.  The time 0 means now; the buffer
   * of 31 characters holds the text and its NUL.
   */
  method GetDateStringRfc822(time: nat, now: nat) returns (out: string)
    requires GmTime(if time == 0 then now else time).year < 10000
    ensures out == DateText(if time == 0 then now else time)
    ensures |out| == 29 && '\0' !in out
  {
    hide GmTime, Weekday, DateText, Tens, Ones, MONTHS, WEEK_DAYS, MonthLength, DayPart, ClockPart;
    var t := if time == 0 then now else time;
    DateAssembled(t);
    var tm := GmTime(t);
    var localStr := new char[31](_ => '\0');
    var p := 0;
    p := WriteDay(localStr, p, WEEK_DAYS[Weekday(t)], MONTHS[tm.mon], tm);
    p := WriteClock(localStr, p, tm);
    localStr[p] := '\0';
    out := localStr[..p];
  }
}

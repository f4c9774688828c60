/**
 * When the chunked decoder depends on how the network splits its stream: the exact
 * condition, in terms of what strtol finds behind a line end.
 *
 * The result compared is the list of payloads handed to procChunkedBlocks (which a
 * listener with block size 0 gets one by one) and the outcome.
 */
module ChunkSplits {
  import opened Common
  import opened Reblock
  import opened Range
  import opened Chars
  import opened Chunked

  /** No C object is larger; a stream that fits one buffer is shorter. */
  const MEMORY: int := 0x8000_0000_0000_0000

  /**
   * The condition on the bytes from a size line on.  With the line end among the first
   * six bytes, strtol on the line and two more bytes finds the number it finds on
   * everything, unless that number is positive or, with the length it is added to, negative.
   */
  predicate SteadyLine(r: string) {
    var k := FindCrlf(r);
    k <= 4 && k + 4 <= |r| ==>
      var a := Strtol16(r[..k + 4]);
      -(k + 4) <= a <= 0 ==> Strtol16(r) == a
  }

  /** The condition wherever the scan gets to. */
  predicate SteadyLines(text: string)
    decreases |text|
  {
    SteadyLine(text)
    && match TurnOf(text)
       case Halt(_) => true
       case Chunk(at, size) => SteadyLines(text[at + size + 2..])
  }

  // ------------------------------------------------- numbers cut off by the end

  predicate AllHex(s: string) {
    forall i :: 0 <= i < |s| ==> IsHex(s[i])
  }

  lemma {:induction false} HexAppend(s: string, t: string, acc: nat)
    ensures AllHex(s) ==> HexDigits(s + t, acc) == HexDigits(t, HexDigits(s, acc))
    ensures !AllHex(s) ==> HexDigits(s + t, acc) == HexDigits(s, acc)
  {
    if s == "" {
      assert s + t == t;
    } else {
      assert (s + t)[1..] == s[1..] + t;
      if IsHex(s[0]) {
        HexAppend(s[1..], t, acc * 16 + HexOf(s[0]));
        assert AllHex(s[1..]) ==> AllHex(s) by {
          assert s == [s[0]] + s[1..];
        }
        assert AllHex(s) ==> AllHex(s[1..]);
      }
    }
  }

  lemma {:induction false} HexGrows(s: string, acc: nat)
    ensures HexDigits(s, acc) >= acc
    ensures acc > 0 && AllHex(s) ==> HexDigits(s, acc) >= acc + |s|
    ensures s != "" && IsHex(s[0]) ==> HexDigits(s, acc) >= 16 * acc
  {
    if s != "" && IsHex(s[0]) {
      HexGrows(s[1..], acc * 16 + HexOf(s[0]));
      assert AllHex(s) ==> AllHex(s[1..]);
    }
  }

  /** A number that goes on behind its first digits outgrows the bytes it takes. */
  lemma {:induction false} HexRun(u: string, c: nat, m: nat)
    requires c <= m <= |u| && HexDigits(u[..c], 0) > 0
    ensures var x := HexDigits(u[..c], 0);
      && (HexDigits(u[..m], 0) == HexDigits(u, 0) || HexDigits(u[..m], 0) >= x + (m - c))
      && (HexDigits(u, 0) == x || HexDigits(u, 0) >= 16 * x)
  {
    var x := HexDigits(u[..c], 0);
    assert u == u[..m] + u[m..] && u[..m] == u[..c] + u[c..m] && u == u[..c] + u[c..];
    HexAppend(u[..m], u[m..], 0);
    HexAppend(u[..c], u[c..m], 0);
    HexAppend(u[..c], u[c..], 0);
    HexGrows(u[c..m], x);
    HexGrows(u[c..], x);
    if AllHex(u[..m]) {
      assert AllHex(u[..c]) && AllHex(u[c..m]);
    }
    hide HexDigits;
    TailOfDigits(u[c..], x);
  }

  lemma {:induction false} TailOfDigits(s: string, acc: nat)
    ensures s == "" || !IsHex(s[0]) ==> HexDigits(s, acc) == acc
  {}

  lemma {:induction false} HexPrefix(s: string, m: nat)
    requires m <= |s|
    ensures HexDigits(s[..m], 0) <= HexDigits(s, 0) && HexNumber(s[..m]) <= HexNumber(s)
  {
    assert s == s[..m] + s[m..];
    HexAppend(s[..m], s[m..], 0);
    HexGrows(s[m..], HexDigits(s[..m], 0));
    if m >= 3 {
      var u := s[2..];
      assert s[..m][2..] == u[..m - 2] && u == u[..m - 2] + u[m - 2..];
      HexAppend(u[..m - 2], u[m - 2..], 0);
      HexGrows(u[m - 2..], HexDigits(u[..m - 2], 0));
    } else {
      ShortNumber(s, m);
    }
  }

  /** Two bytes of a number with the prefix 0x are worth nothing. */
  lemma {:induction false} ShortNumber(s: string, m: nat)
    requires m <= |s| && m < 3
    ensures |s| >= 3 && s[0] == '0' && (s[1] == 'x' || s[1] == 'X') ==> HexNumber(s[..m]) == 0
  {
    if |s| >= 3 && s[0] == '0' && (s[1] == 'x' || s[1] == 'X') {
      var p := s[..m];
      if m == 2 {
        assert p == [s[0], s[1]] && p[1..] == [s[1]];
        assert HexDigits(p[1..], 0) == 0;
      }
      if m == 1 {
        assert p == [s[0]] && p[1..] == "";
        assert HexDigits(p[1..], 0) == 0;
      }
    }
  }

  /** x lies between 0 and y. */
  predicate Towards(x: int, y: int) {
    0 <= x <= y || y <= x <= 0
  }

  /** On a part of the bytes strtol finds a number between 0 and the one on all of them. */
  lemma {:induction false} StrtolPrefix(t: string, m: nat)
    requires m <= |t|
    ensures Towards(Strtol16(t[..m]), Strtol16(t))
    decreases |t|
  {
    hide HexNumber;
    if m > 0 {
      assert t[..m][1..] == t[1..][..m - 1];
      if IsSpace(t[0]) {
        StrtolPrefix(t[1..], m - 1);
      } else if t[0] == '-' || t[0] == '+' {
        HexPrefix(t[1..], m - 1);
      } else {
        HexPrefix(t, m);
      }
    }
  }

  function Signed(neg: bool, x: nat): (v: int) {
    Saturate(if neg then 0 - (x as int) else x)
  }

  /**
   * When two bytes give a number, its digits start at the first or second of them, and
   * there is no 0x: it is those digits with a sign, however many bytes follow.
   */
  lemma {:induction false} NumberShape(t: string, m: nat) returns (d: nat, neg: bool)
    requires 2 <= m <= |t| && Strtol16(t[..2]) != 0
    ensures d <= 1 && HexDigits(t[d..2], 0) > 0
    ensures Strtol16(t[..2]) == Signed(neg, HexDigits(t[d..2], 0))
    ensures Strtol16(t[..m]) == Signed(neg, HexDigits(t[d..m], 0))
    ensures Strtol16(t) == Signed(neg, HexDigits(t[d..], 0))
  {
    hide HexDigits, HexNumber, Saturate;
    var two := t[..2];
    assert two[1..] == t[1..2] && t[..m][1..] == t[1..m] && t[0..2] == two && t[0..m] == t[..m] && t[0..] == t;
    TwoBytes(two);
    d, neg := 0, false;
    if IsHex(t[0]) {
      NoPrefix(two, two);
      NoPrefix(two, t[..m]);
      NoPrefix(two, t);
    } else {
      d, neg := 1, t[0] == '-';
      assert [t[1]] == t[1..2];
      NoPrefix([t[1]], [t[1]]);
      NoPrefix([t[1]], t[1..m]);
      NoPrefix([t[1]], t[1..]);
    }
    ZeroIsZero();
  }

  lemma {:induction false} ZeroIsZero()
    ensures Saturate(0) == 0
  {}

  /** What two bytes that give a number look like. */
  lemma {:induction false} TwoBytes(two: string)
    requires |two| == 2 && Strtol16(two) != 0
    ensures IsHex(two[0]) ==> HexDigits(two, 0) > 0 && (two[0] == '0' ==> IsHex(two[1]))
    ensures !IsHex(two[0]) ==> (IsSpace(two[0]) || two[0] == '-' || two[0] == '+') && IsHex(two[1])
                               && two[1] != '0' && HexDigits([two[1]], 0) > 0
  {
    var one := [two[1]];
    assert two[1..] == one && one[1..] == "";
    assert HexDigits("", 0) == 0 && HexNumber("") == 0 && Strtol16("") == 0;
    if !IsHex(two[0]) {
      assert !IsHex(one[0]) || one[0] == '0' ==> HexDigits(one, 0) == 0;
      assert HexNumber(one) == HexDigits(one, 0);
    }
  }

  /** Without 0x a number is its digits. */
  lemma {:induction false} NoPrefix(p: string, s: string)
    requires p != "" && p <= s && IsHex(p[0])
    requires p[0] != '0' || (|p| > 1 && IsHex(p[1]))
    ensures HexNumber(s) == HexDigits(s, 0) && !IsSpace(s[0]) && s[0] != '-' && s[0] != '+'
  {
    assert s[0] == p[0];
    if |p| > 1 { assert s[1] == p[1]; }
    hide HexDigits;
  }

  lemma {:induction false} Grows(t: string, m: nat)
    requires 2 <= m <= |t| < MEMORY && Strtol16(t[..2]) != 0
    ensures var a, v, w := Strtol16(t[..2]), Strtol16(t[..m]), Strtol16(t);
      && (a > 0 ==> v == w || v > m - 2)
      && (a < 0 ==> v <= a && (w == a || w <= -16))
  {
    hide HexDigits, Strtol16;
    var d, neg := NumberShape(t, m);
    var u := t[d..];
    assert u[..2 - d] == t[d..2] && u[..m - d] == t[d..m];
    HexRun(u, 2 - d, m - d);
    HexPrefix(u[..m - d], 2 - d);
    assert u[..m - d][..2 - d] == u[..2 - d];
  }

  // ------------------------------------------------------- one turn, cut short

  predicate AllSpace(s: string) {
    forall i :: 0 <= i < |s| ==> IsSpace(s[i])
  }

  lemma {:induction false} SkipBlanks(w: string, t: string)
    requires AllSpace(w)
    ensures Strtol16(w + t) == Strtol16(t)
  {
    if w == "" {
      assert w + t == t;
    } else {
      assert (w + t)[1..] == w[1..] + t && (w + t)[0] == w[0];
      SkipBlanks(w[1..], t);
    }
  }

  lemma {:induction false} FindCrlfCut(r: string, n: nat)
    requires n <= |r|
    ensures FindCrlf(r) + 2 <= n ==> FindCrlf(r[..n]) == FindCrlf(r)
    ensures FindCrlf(r) + 2 > n ==> FindCrlf(r[..n]) == n
  {
    if n >= 2 && !(r[0] == '\r' && r[1] == '\n') {
      assert r[..n][1..] == r[1..][..n - 1];
      FindCrlfCut(r[1..], n - 1);
    }
  }

  /** The decision behind a blank line that ends at k <= 4, on n bytes where strtol finds v. */
  function Decide(k: nat, v: int, n: nat): (t: Turn) {
    if U64(k + 2 + U64(v) + 2) > n then Halt(More)
    else if k + 2 + U64(v) + 2 >= TWO_64 then Halt(Overrun)
    else Chunk(k + 2, U64(v))
  }

  lemma {:induction false} DecideMeans(k: nat, v: int, n: nat)
    requires k <= 4 && n < MEMORY && -MEMORY <= v < MEMORY
    ensures v >= 0 ==> Decide(k, v, n) == if k + 4 + v > n then Halt(More) else Chunk(k + 2, v)
    ensures -(k + 4) <= v < 0 ==> Decide(k, v, n) == if k + 4 + v > n then Halt(More) else Halt(Overrun)
    ensures v < -(k + 4) ==> Decide(k, v, n) == Halt(More)
  {
    assert v < 0 ==> U64(v) == TWO_64 + v;
  }

  /** A size line of nothing but blanks. */
  predicate BlankLine(r: string) {
    FindCrlf(r) < |r| && AllSpace(r[..FindCrlf(r)])
  }

  lemma {:induction false} BlankTurn(r: string, n: nat)
    requires BlankLine(r) && FindCrlf(r) <= 4 && FindCrlf(r) + 2 <= n <= |r|
    ensures var k := FindCrlf(r);
      var v := Strtol16(r[k + 2..][..n - k - 2]);
      Strtol16(r[..n]) == v && TurnOf(r[..n]) == Decide(k, v, n)
  {
    hide Strtol16, FindCrlf;
    FindCrlfCut(r, n);
    var k := FindCrlf(r);
    var w, t := r[..k + 2], r[k + 2..][..n - k - 2];
    assert r[..n] == w + t;
    assert AllSpace(w) by {
      forall i | 0 <= i < k + 2 ensures IsSpace(w[i]) {
        assert i < k ==> w[i] == r[..k][i];
      }
    }
    SkipBlanks(w, t);
    assert IsSpace(r[..n][0]) by { assert r[..n][0] == w[0]; }
    SpaceIsNotZero();
    hide Decide, U64;
  }

  lemma {:induction false} SpaceIsNotZero()
    ensures !IsSpace('0')
  {}

  /** The condition on the bytes behind the line end. */
  predicate SteadyTail(k: nat, t: string) {
    |t| >= 2 ==> -(k + 4) <= Strtol16(t[..2]) <= 0 ==> Strtol16(t) == Strtol16(t[..2])
  }

  lemma {:induction false} TailSteady(k: nat, t: string, m: nat)
    requires k <= 4 && m <= |t| && k + 2 + |t| < MEMORY && SteadyTail(k, t)
    ensures var d := Decide(k, Strtol16(t[..m]), k + 2 + m);
      d == Halt(More) || d == Decide(k, Strtol16(t), k + 2 + |t|)
  {
    hide Decide, Strtol16;
    var v, w := Strtol16(t[..m]), Strtol16(t);
    StrtolRange(t[..m]);
    StrtolRange(t);
    DecideMeans(k, v, k + 2 + m);
    DecideMeans(k, w, k + 2 + |t|);
    StrtolPrefix(t, m);
    if m < 2 {
      OneByte(t[..m]);
    } else {
      var a := Strtol16(t[..2]);
      assert t[..m][..2] == t[..2];
      StrtolPrefix(t[..m], 2);
      if a != 0 { Grows(t, m); }
    }
  }

  lemma {:induction false} StrtolRange(s: string)
    ensures -MEMORY <= Strtol16(s) < MEMORY
    decreases |s|
  {
    if s != "" && IsSpace(s[0]) { StrtolRange(s[1..]); }
  }

  lemma {:induction false} OneByte(s: string)
    requires |s| < 2
    ensures 0 <= Strtol16(s) <= 15
  {
    assert HexDigits("", 0) == 0 && HexNumber("") == 0 && Strtol16("") == 0;
    if |s| == 1 {
      assert s[1..] == "";
      if IsHex(s[0]) {
        TailOfDigits("", HexOf(s[0]));
        assert HexDigits(s, 0) == HexOf(s[0]);
      }
    }
  }

  lemma {:induction false} TailUnsteady(k: nat, t: string)
    requires k <= 4 && |t| >= 2 && k + 2 + |t| < MEMORY && !SteadyTail(k, t)
    ensures var d := Decide(k, Strtol16(t[..2]), k + 4);
      d != Halt(More) && d != Decide(k, Strtol16(t), k + 2 + |t|)
  {
    hide Decide, Strtol16;
    var a, w := Strtol16(t[..2]), Strtol16(t);
    StrtolRange(t[..2]);
    StrtolRange(t);
    DecideMeans(k, a, k + 4);
    DecideMeans(k, w, k + 2 + |t|);
    StrtolPrefix(t, 2);
    if a != 0 { Grows(t, |t|); }
  }

  // ------------------------------------------------------ the exact condition

  lemma {:induction false} WaitsForLine(r: string)
    requires FindCrlf(r) == |r|
    ensures Steady(r) && SteadyLine(r)
  {
    hide FindCrlf, Strtol16;
    forall n | 0 <= n <= |r| ensures TurnOf(r[..n]) == Halt(More) {
      FindCrlfCut(r, n);
    }
  }

  lemma {:induction false} SolidExact(r: string)
    requires FindCrlf(r) < |r| && SolidLine(r)
    ensures Steady(r) && SteadyLine(r)
  {
    hide FindCrlf, Strtol16, Steady;
    SolidIsSteady(r);
    var k := FindCrlf(r);
    if k + 4 <= |r| {
      var j :| 0 <= j < k && !IsSpace(r[j]);
      var s := r[..k + 4];
      assert s + r[k + 4..] == r && s[j] == r[j] && s[k] == r[k];
      StrtolStable(s, r[k + 4..], j, k);
    }
  }

  lemma {:induction false} LongBlankLine(r: string)
    requires BlankLine(r) && FindCrlf(r) > 4
    ensures Steady(r) && SteadyLine(r)
  {
    hide FindCrlf, Strtol16;
    var k := FindCrlf(r);
    assert r[..k][0] == r[0];
    SpaceIsNotZero();
    forall n | 0 <= n <= |r| ensures TurnOf(r[..n]) == Halt(More) || TurnOf(r[..n]) == TurnOf(r) {
      FindCrlfCut(r, n);
    }
  }

  lemma {:induction false} BlankExact(r: string)
    requires BlankLine(r) && FindCrlf(r) <= 4 && |r| < MEMORY
    ensures Steady(r) <==> SteadyLine(r)
  {
    hide FindCrlf, Strtol16, TurnOf, Decide;
    var k := FindCrlf(r);
    var t := r[k + 2..];
    BlankTurn(r, |r|);
    assert r[..|r|] == r && t[..|t|] == t;
    if |t| >= 2 {
      BlankTurn(r, k + 4);
    }
    if SteadyTail(k, t) {
      forall n | 0 <= n <= |r| ensures TurnOf(r[..n]) == Halt(More) || TurnOf(r[..n]) == TurnOf(r) {
        if n < k + 2 {
          WaitingTurn(r, n);
        } else {
          BlankTurn(r, n);
          TailSteady(k, t, n - k - 2);
        }
      }
    } else {
      TailUnsteady(k, t);
    }
  }

  lemma {:induction false} WaitingTurn(r: string, n: nat)
    requires n <= |r| && n < FindCrlf(r) + 2
    ensures TurnOf(r[..n]) == Halt(More)
  {
    hide FindCrlf, Strtol16;
    FindCrlfCut(r, n);
  }

  /**
   * A turn may come out differently on a part of the bytes exactly when the number behind
   * a line end among the first six bytes is changed by the bytes that follow.
   */
  lemma {:induction false} SteadyExact(r: string)
    requires |r| < MEMORY
    ensures Steady(r) <==> SteadyLine(r)
  {
    hide FindCrlf, Steady, SteadyLine;
    var k := FindCrlf(r);
    if k == |r| {
      WaitsForLine(r);
    } else if SolidLine(r) {
      SolidExact(r);
    } else {
      assert AllSpace(r[..k]);
      if k > 4 { LongBlankLine(r); } else { BlankExact(r); }
    }
  }

  lemma {:induction false} SteadyLinesExact(text: string)
    requires |text| < MEMORY
    ensures SteadyScan(text) <==> SteadyLines(text)
    decreases |text|
  {
    hide TurnOf, Steady, SteadyLine;
    SteadyExact(text);
    match TurnOf(text)
    case Halt(_) =>
    case Chunk(at, size) => SteadyLinesExact(text[at + size + 2..]);
  }

  // ------------------------------------------------------------ cuts that show

  /** A chunk that is complete in a part of the bytes does not wait for more. */
  lemma {:induction false} NoLookahead(r: string, m: nat)
    requires |r| < MEMORY && TurnOf(r).Chunk?
    requires TurnOf(r).at + TurnOf(r).size + 2 <= m <= |r|
    ensures TurnOf(r[..m]) != Halt(More)
  {
    hide FindCrlf, Strtol16;
    FindCrlfCut(r, m);
    StrtolPrefix(r, m);
    StrtolRange(r);
    assert r[..m][0] == r[0];
    var w := Strtol16(r);
    assert w < 0 ==> U64(w) == TWO_64 + w;
  }

  /** Payloads and outcome in two pieces. */
  lemma {:induction false} TwoPieces(p: string, q: string)
    ensures Flatten([p, q]) == p + q
    ensures var r := FeedPieces("", [p, q]);
            r.payloads == Resume(p, q).payloads && r.stop == Resume(p, q).stop
  {
    hide Scan;
    assert [p, q][1..] == [q] && [q][1..] == [] && "" + p == p;
    assert Flatten([q]) == q by { assert Flatten([]) == "" && q + "" == q; }
    var a := Scan(p);
    if a.stop == More {
      var rest := p[a.used..];
      var b := Scan(rest + q);
      assert FeedPieces((rest + q)[b.used..], []).payloads == [];
      assert b.payloads + [] == b.payloads;
      assert FeedPieces(rest, [q]).payloads == b.payloads;
    }
  }

  /** Whether the cut behind `c` bytes changes the payloads or the outcome. */
  ghost predicate Shows(text: string, c: nat)
    requires c <= |text|
  {
    var r := Resume(text[..c], text[c..]);
    r.payloads != Scan(text).payloads || r.stop != Scan(text).stop
  }

  lemma {:induction false} ChunkCut(text: string, n: nat)
    requires n <= |text| && TurnOf(text[..n]).Chunk?
    ensures var t := TurnOf(text[..n]);
            var p := Resume(text[..n], text[n..]).payloads;
            p != [] && p[0] == text[t.at..t.at + t.size]
  {
    hide TurnOf;
    var t := TurnOf(text[..n]);
    ResumeChunk(text[..n], text[n..], t.at, t.size);
    assert text[..n][t.at..t.at + t.size] == text[t.at..t.at + t.size];
  }

  lemma {:induction false} HaltCut(text: string, n: nat)
    requires n <= |text| && TurnOf(text[..n]).Halt? && TurnOf(text[..n]) != Halt(More)
    ensures var r := Resume(text[..n], text[n..]);
            r.payloads == [] && Halt(r.stop) == TurnOf(text[..n])
  {
    hide TurnOf;
  }

  lemma {:induction false} SameAt(text: string, n: nat)
    requires n <= |text| && TurnOf(text[..n]).Chunk? && TurnOf(text).Chunk?
    ensures TurnOf(text[..n]).at == TurnOf(text).at
  {
    hide FindCrlf, Strtol16;
    FindCrlfCut(text, n);
  }

  lemma {:induction false} UnsteadyCut(text: string, n: nat)
    requires n <= |text| && TurnOf(text[..n]) != Halt(More) && TurnOf(text[..n]) != TurnOf(text)
    ensures Shows(text, n)
  {
    hide TurnOf, Resume;
    var t, all := TurnOf(text[..n]), TurnOf(text);
    if t.Halt? { HaltCut(text, n); } else { ChunkCut(text, n); }
    if all.Chunk? {
      ScanTurn(text);
      if t.Chunk? { SameAt(text, n); }
    }
  }

  /** A cut behind the first chunk, seen from the bytes that follow it. */
  lemma {:induction false} CutBehindChunk(text: string, t: Turn, c: nat)
    requires t.Chunk? && t.at + t.size + 2 + c <= |text|
    requires TurnOf(text[..t.at + t.size + 2 + c]) == t
    ensures var e := t.at + t.size + 2;
            var rest := Resume(text[e..][..c], text[e..][c..]);
            var r := Resume(text[..e + c], text[e + c..]);
            r.payloads == [text[t.at..t.at + t.size]] + rest.payloads && r.stop == rest.stop
  {
    hide TurnOf, Resume;
    var e := t.at + t.size + 2;
    ResumeChunk(text[..e + c], text[e + c..], t.at, t.size);
    assert text[..e + c][e..] == text[e..][..c] && text[e + c..] == text[e..][c..];
    assert text[..e + c][t.at..t.at + t.size] == text[t.at..t.at + t.size];
  }

  lemma {:induction false} LaterCut(text: string, c: nat)
    requires |text| < MEMORY && Steady(text) && TurnOf(text).Chunk?
    requires var e := TurnOf(text).at + TurnOf(text).size + 2;
             e + c <= |text| && Shows(text[e..], c)
    ensures Shows(text, TurnOf(text).at + TurnOf(text).size + 2 + c)
  {
    hide TurnOf, Resume, Scan;
    var t := TurnOf(text);
    var e := t.at + t.size + 2;
    NoLookahead(text, e + c);
    assert TurnOf(text[..e + c]) == t;
    CutBehindChunk(text, t, c);
    ScanTurn(text);
    ConsApart([text[t.at..t.at + t.size]], Resume(text[e..][..c], text[e..][c..]).payloads, Scan(text[e..]).payloads);
  }

  lemma {:induction false} ConsApart(x: seq<string>, a: seq<string>, b: seq<string>)
    ensures x + a == x + b ==> a == b
  {
    assert (x + a)[|x|..] == a && (x + b)[|x|..] == b;
  }

  lemma {:induction false} UnsteadyShows(text: string) returns (c: nat)
    requires |text| < MEMORY && !SteadyScan(text)
    ensures c <= |text| && Shows(text, c)
    decreases |text|
  {
    hide TurnOf, Resume, Scan, Shows;
    if Steady(text) {
      var t := TurnOf(text);
      c := UnsteadyShows(text[t.at + t.size + 2..]);
      LaterCut(text, c);
      c := t.at + t.size + 2 + c;
    } else {
      c :| 0 <= c <= |text| && TurnOf(text[..c]) != Halt(More) && TurnOf(text[..c]) != TurnOf(text);
      UnsteadyCut(text, c);
    }
  }

  /** However the stream is cut, payloads and outcome are those of one scan. */
  ghost predicate SameInPieces(text: string) {
    forall pieces :: Flatten(pieces) == text ==>
      var r := FeedPieces("", pieces);
      r.payloads == Scan(text).payloads && r.stop == Scan(text).stop
  }

  /** The streams for which the network does not matter, exactly. */
  lemma {:induction false} SplitExact(text: string)
    requires |text| < MEMORY
    ensures SameInPieces(text) <==> SteadyLines(text)
  {
    hide Scan, FeedPieces, SteadyLines, SteadyScan, Resume, Flatten;
    SteadyLinesExact(text);
    if SteadyScan(text) {
      forall pieces | Flatten(pieces) == text
        ensures FeedPieces("", pieces).payloads == Scan(text).payloads && FeedPieces("", pieces).stop == Scan(text).stop
      {
        EmptyScan();
        assert "" + Flatten(pieces) == text;
        FragmentationIndependent("", pieces);
      }
    } else {
      var c := UnsteadyShows(text);
      TwoPieces(text[..c], text[c..]);
      assert text[..c] + text[c..] == text;
    }
  }

  /** Streams without a blank size line are among them. */
  lemma {:induction false} SolidLinesAreSteady(text: string)
    requires |text| < MEMORY && SolidLines(text)
    ensures SteadyLines(text)
  {
    SolidLinesSteady(text);
    SteadyLinesExact(text);
  }

  // ------------------------------------------------------------------ a witness

  lemma {:induction false} DigitZeroFive()
    ensures Strtol16("\r\n 05\r\nab") == 5 && Strtol16("\r\n 0") == 0 && Strtol16("5\r\nab") == 5
  {
    var tail := "\r\nab";
    assert tail[0] == '\r' && "5\r\nab"[1..] == tail && "05\r\nab"[1..] == "5\r\nab";
    assert HexDigits(tail, 5) == 5 && HexDigits("5\r\nab", 0) == 5 && HexDigits("05\r\nab", 0) == 5;
    assert HexNumber("5\r\nab") == 5 && HexNumber("05\r\nab") == 5;
    SkipBlanks("\r\n ", "05\r\nab");
    assert "\r\n " + "05\r\nab" == "\r\n 05\r\nab";
    assert "0"[1..] == "" && HexDigits("", 0) == 0 && HexDigits("0", 0) == 0;
    SkipBlanks("\r\n ", "0");
    assert "\r\n " + "0" == "\r\n 0";
  }

  lemma {:induction false} ThreeTurns()
    ensures TurnOf("\r\n 05\r\nab") == Chunk(2, 5)
    ensures TurnOf("\r\n 0") == Chunk(2, 0)
    ensures TurnOf("5\r\nab") == Halt(More)
  {
    hide Strtol16;
    DigitZeroFive();
    assert "5\r\nab"[1..] == "\r\nab";
    assert FindCrlf("\r\nab") == 0;
    assert FindCrlf("5\r\nab") == 1;
  }

  /**
   * Nine bytes of which the listener gets five when they arrive at once, and none when
   * they arrive in two pieces.
   */
  lemma {:induction false} BytesDependOnPieces()
    ensures var text, pieces := "\r\n 05\r\nab", ["\r\n 0", "5\r\nab"];
            && Flatten(pieces) == text && !SteadyLines(text)
            && Flatten(Scan(text).payloads) == " 05\r\n"
            && Flatten(FeedPieces("", pieces).payloads) == ""
            && Scan(text).stop == FeedPieces("", pieces).stop == More
  {
    hide TurnOf, SteadyLines, FeedPieces;
    var text, p, q := "\r\n 05\r\nab", "\r\n 0", "5\r\nab";
    ThreeTurns();
    EmptyScan();
    assert text[9..] == "" && p[4..] == "" && text[2..7] == " 05\r\n" && p[2..2] == "";
    assert Scan(text) == Scanned([" 05\r\n"], 9, More);
    assert Scan(p) == Scanned([""], 4, More) && Scan(q) == Scanned([], 0, More);
    TwoPieces(p, q);
    assert "" + q == q && [""] + [] == [""];
    FlattenOne([], "");
    FlattenOne([], " 05\r\n");
    assert [] + [""] == [""] && [] + [" 05\r\n"] == [" 05\r\n"];
    SplitExact(text);
  }
}

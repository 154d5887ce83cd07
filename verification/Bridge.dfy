/**
 The transform bridge (crates/hawk/src/awk.rs): frames are printed to an awk process line by line,
 and the lines it prints are parsed back into frames.
 */
module Bridge {
  import opened HawkFrame
  import opened Utf8
  import opened Framing
  import opened Accounting

  /**
   What became of one frame in the writer thread: the write of the line, the write of the newline and
   the flush can each fail. A failed write of the line may have got some bytes of it across.
   */
  datatype Push = Pushed | LineFailed(arrived: nat) | NewlineFailed | FlushFailed

  /**
   The writer thread: the lines that reach awk whole, what reaches it of one more, and the complaints.
   The first failure ends the thread.
   */
  method WriterThread(codec: TimeCodec, frames: seq<Frame>, clocks: seq<Stamp>, pushes: seq<Push>)
    returns (lines: seq<string>, torn: bytes, errors: seq<string>)
    requires |clocks| == |frames| == |pushes|
    ensures lines == Printed(codec, frames[..WholeLines(pushes)], clocks[..WholeLines(pushes)])
    ensures torn == Torn(codec, frames, clocks, pushes)
    ensures FirstFailure(pushes) == |pushes| ==> errors == []
    ensures FirstFailure(pushes) < |pushes| ==>
      var p := pushes[FirstFailure(pushes)];
      errors == [if p.LineFailed? then "awk stdin write failed"
                 else if p.NewlineFailed? then "awk stdin newline failed" else "awk stdin flush failed"]
  {
    hide ToTsvLine, Encode;
    lines, torn, errors := [], [], [];
    FirstFailureIsFirst(pushes);
    var i := 0;
    while i < |frames|
      invariant 0 <= i <= FirstFailure(pushes)
      invariant lines == Printed(codec, frames[..i], clocks[..i])
      invariant torn == [] && errors == []
    {
      var line := ToTsvLine(codec, frames[i], clocks[i]);
      if !pushes[i].Pushed? {
        errors := [Complaint(pushes[i])];
        match pushes[i] {
          case LineFailed(arrived) => torn := Front(Encode(line), arrived);
          case NewlineFailed => torn := Encode(line);
          case FlushFailed => lines := lines + [line];
        }
        break;
      }
      lines := lines + [line];
      i := i + 1;
    }
  }

  function Complaint(p: Push): string {
    match p
    case Pushed => ""
    case LineFailed(_) => "awk stdin write failed"
    case NewlineFailed => "awk stdin newline failed"
    case FlushFailed => "awk stdin flush failed"
  }

  function FirstFailure(pushes: seq<Push>): (k: nat)
    ensures k <= |pushes|
  {
    if pushes == [] || !pushes[0].Pushed? then 0 else 1 + FirstFailure(pushes[1..])
  }

  lemma {:induction false} FirstFailureIsFirst(pushes: seq<Push>)
    ensures forall i :: 0 <= i < FirstFailure(pushes) ==> pushes[i].Pushed?
    ensures FirstFailure(pushes) < |pushes| ==> !pushes[FirstFailure(pushes)].Pushed?
  {
    if pushes != [] && pushes[0].Pushed? {
      FirstFailureIsFirst(pushes[1..]);
      assert forall i :: 1 <= i < |pushes| ==> pushes[i] == pushes[1..][i - 1];
    }
  }

  /** The lines that awk gets with their newline; a failed flush comes too late to stop its line. */
  function WholeLines(pushes: seq<Push>): (k: nat)
    ensures k <= |pushes|
  {
    var k := FirstFailure(pushes);
    if k < |pushes| && pushes[k].FlushFailed? then k + 1 else k
  }

  function Front(line: bytes, n: nat): bytes {
    if n < |line| then line[..n] else line
  }

  /** What awk gets without a newline behind it. */
  function Torn(codec: TimeCodec, frames: seq<Frame>, clocks: seq<Stamp>, pushes: seq<Push>): bytes
    requires |clocks| == |frames| == |pushes|
  {
    var k := FirstFailure(pushes);
    if k == |pushes| then []
    else
      match pushes[k]
      case LineFailed(arrived) => Front(Encode(ToTsvLine(codec, frames[k], clocks[k])), arrived)
      case NewlineFailed => Encode(ToTsvLine(codec, frames[k], clocks[k]))
      case _ => []
  }

  function Printed(codec: TimeCodec, frames: seq<Frame>, clocks: seq<Stamp>): seq<string>
    requires |clocks| == |frames|
  {
    seq(|frames|, i requires 0 <= i < |frames| => ToTsvLine(codec, frames[i], clocks[i]))
  }

  function ParseAll(codec: TimeCodec, lines: seq<string>): seq<Parsed> {
    seq(|lines|, i requires 0 <= i < |lines| => Parse(codec, lines[i]))
  }

  function Frames(parsed: seq<Parsed>): seq<Frame> {
    if parsed == [] then []
    else
      var last := parsed[|parsed| - 1];
      Frames(parsed[..|parsed| - 1]) + if last.Accepted? then [last.frame] else []
  }

  function Errors(parsed: seq<Parsed>): nat {
    if parsed == [] then 0
    else Errors(parsed[..|parsed| - 1]) + if parsed[|parsed| - 1].Rejected? then 1 else 0
  }

  /**
   The reader thread: frames to the output channel and one complaint for each refused line; a read
   error is one more complaint and the end.
   */
  method ReaderThread(codec: TimeCodec, items: seq<Item>) returns (out: seq<Frame>, errors: nat)
    ensures
      var n := ReadableLength(items);
      var parsed := ParseAll(codec, Texts(items[..n]));
      out == Frames(parsed) && errors == Errors(parsed) + if n < |items| then 1 else 0
  {
    hide Parse, ReadableLength;
    out, errors := [], 0;
    ghost var n := ReadableLength(items);
    ghost var parsed := ParseAll(codec, Texts(items[..n]));
    var i := 0;
    while i < |items|
      invariant 0 <= i <= n
      invariant out == Frames(parsed[..i]) && errors == Errors(parsed[..i])
    {
      if items[i].Unreadable? {
        errors := errors + 1;
        break;
      }
      assert parsed[..i + 1][..i] == parsed[..i];
      match Parse(codec, items[i].text) {
        case Accepted(f) => out := out + [f];
        case Ignored =>
        case Rejected(_) => errors := errors + 1;
      }
      i := i + 1;
    }
    assert parsed[..n] == parsed;
  }

  function Texts(items: seq<Item>): seq<string>
    requires forall i :: 0 <= i < |items| ==> items[i].Line?
  {
    seq(|items|, i requires 0 <= i < |items| => items[i].text)
  }

  lemma ParseAllAppend(codec: TimeCodec, lines: seq<string>, line: string)
    ensures ParseAll(codec, lines + [line]) == ParseAll(codec, lines) + [Parse(codec, line)]
  {
    hide Parse;
  }

  lemma FramesAppend(parsed: seq<Parsed>, p: Parsed)
    ensures Frames(parsed + [p]) == if p.Accepted? then Frames(parsed) + [p.frame] else Frames(parsed)
    ensures Errors(parsed + [p]) == Errors(parsed) + if p.Rejected? then 1 else 0
  {
    assert (parsed + [p])[..|parsed|] == parsed;
  }

  /** Each frame as one print-and-parse leaves it. */
  function NormalAll(frames: seq<Frame>, clocks: seq<Stamp>): seq<Frame>
    requires |clocks| == |frames|
  {
    seq(|frames|, i requires 0 <= i < |frames| => Normal(frames[i], clocks[i]))
  }

  /** What may enter the bridge: frames read from single lines, and clocks that can be printed. */
  ghost predicate Printable(codec: TimeCodec, frames: seq<Frame>, clocks: seq<Stamp>)
    requires |clocks| == |frames|
  {
    forall i :: 0 <= i < |frames| ==>
      CleanFrame(frames[i]) && OneLineFrame(frames[i]) && Formattable(codec, Stamped(frames[i], clocks[i]))
  }
}

/** The parts of awk that the threads rely on, with `FS = "\t"`. */
module Awk {
  import opened Basics
  import opened Text
  import opened HawkFrame
  import opened Decimal

  /** The escape processing that `-v` applies to a value. */
  datatype Dialect = Dialect(escapes: string -> string)

  /** Escapes need a backslash. */
  ghost predicate Standard(d: Dialect) {
    forall s :: '\\' !in s ==> d.escapes(s) == s
  }

  /** `$n`, empty if there is no such field. */
  function Field(line: string, n: nat): string
    requires n > 0
  {
    var fields := Split(line, '\t');
    if n <= |fields| then fields[n - 1] else ""
  }

  // ----- Numeric strings: blanks, a sign, digits with a fraction, an exponent

  predicate AwkBlank(c: char) {
    c == ' ' || c == '\t' || c == '\n'
  }

  function SkipBlanks(s: string): string {
    if s != "" && AwkBlank(s[0]) then SkipBlanks(s[1..]) else s
  }

  function DropBlanks(s: string): string {
    if s != "" && AwkBlank(s[|s| - 1]) then DropBlanks(s[..|s| - 1]) else s
  }

  function Core(s: string): string {
    DropBlanks(SkipBlanks(s))
  }

  function Unsigned(s: string): string {
    if s != "" && (s[0] == '+' || s[0] == '-') then s[1..] else s
  }

  function TakeDigits(s: string): (digits: string)
    ensures AllDigits(digits)
  {
    if s != "" && IsDigit(s[0]) then [s[0]] + TakeDigits(s[1..]) else ""
  }

  function DropDigits(s: string): string {
    if s != "" && IsDigit(s[0]) then DropDigits(s[1..]) else s
  }

  function Fraction(s: string): (digits: string)
    ensures AllDigits(digits)
  {
    if s != "" && s[0] == '.' then TakeDigits(s[1..]) else ""
  }

  function AfterFraction(s: string): string {
    if s != "" && s[0] == '.' then DropDigits(s[1..]) else s
  }

  function Exponent(s: string): Option<int> {
    if s == "" then Some(0)
    else if s[0] != 'e' && s[0] != 'E' then None
    else
      var digits := Unsigned(s[1..]);
      if digits == "" || !AllDigits(digits) then None
      else Some(if s[1] == '-' then Negate(Value(digits)) else Value(digits))
  }

  /** `n` times the `e`-th power of ten. */
  function Scaled(n: nat, e: int): real
    decreases if e < 0 then -e else e
  {
    if e == 0 then n as real
    else if e > 0 then Scaled(n, e - 1) * 10.0
    else Scaled(n, e + 1) / 10.0
  }

  function Magnitude(s: string): Option<real> {
    var whole, rest := TakeDigits(s), DropDigits(s);
    var fraction := Fraction(rest);
    match Exponent(AfterFraction(rest))
    case None => None
    case Some(e) =>
      if whole + fraction == "" then None else Some(Scaled(Value(whole + fraction), e - |fraction|))
  }

  /** The value of a text that looks numeric. */
  function Number(s: string): Option<real> {
    var core := Core(s);
    match Magnitude(Unsigned(core))
    case None => None
    case Some(v) => Some(if core != "" && core[0] == '-' then -v else v)
  }

  /** `==` between a field and a `-v` variable: by value if both look numeric, else as text. */
  predicate SameValue(field: string, v: string) {
    if Number(field).Some? && Number(v).Some? then Number(field) == Number(v) else field == v
  }

  /** Another way to write a number: one more zero in front of its digits. */
  function Respelled(s: string): string {
    var core := Core(s);
    var digits := Unsigned(core);
    core[..|core| - |digits|] + "0" + digits
  }

  lemma {:induction false} ZeroInFront(s: string)
    requires AllDigits(s)
    ensures AllDigits("0" + s) && Value("0" + s) == Value(s)
  {
    assert AllDigits("0" + s);
    if s == "" {
      assert "0"[..0] == "";
    } else {
      var n := |s| - 1;
      ZeroInFront(s[..n]);
      assert ("0" + s)[..n + 1] == "0" + s[..n];
    }
  }

  lemma SameMagnitude(s: string)
    requires Magnitude(s).Some?
    ensures Magnitude("0" + s) == Magnitude(s)
  {
    hide Exponent, Scaled;
    var z := "0" + s;
    assert z[1..] == s;
    var whole, fraction := TakeDigits(s), Fraction(DropDigits(s));
    assert TakeDigits(z) == "0" + whole;
    ZeroInFront(whole + fraction);
    assert ("0" + whole) + fraction == "0" + (whole + fraction);
  }

  predicate NumberChar(c: char) {
    IsDigit(c) || c in {'+', '-', '.', 'e', 'E'}
  }

  lemma {:induction false} DigitParts(s: string)
    ensures s == TakeDigits(s) + DropDigits(s)
  {
    if s != "" && IsDigit(s[0]) {
      DigitParts(s[1..]);
    }
  }

  lemma ExponentChars(s: string)
    requires Exponent(s).Some?
    ensures forall c :: c in s ==> NumberChar(c)
  {
    if s != "" {
      var digits := Unsigned(s[1..]);
      assert forall c :: c in digits ==> IsDigit(c);
      assert s == [s[0]] + s[1..];
    }
  }

  lemma MagnitudeChars(s: string)
    requires Magnitude(s).Some?
    ensures s != "" && forall c :: c in s ==> NumberChar(c)
  {
    hide Exponent, Scaled, Value;
    var whole, rest := TakeDigits(s), DropDigits(s);
    DigitParts(s);
    ExponentChars(AfterFraction(rest));
    if rest != "" && rest[0] == '.' {
      DigitParts(rest[1..]);
      assert rest == "." + Fraction(rest) + AfterFraction(rest);
    }
    assert forall c :: c in whole ==> IsDigit(c);
    assert forall c :: c in Fraction(rest) ==> IsDigit(c);
  }

  lemma CoreOfPlain(s: string)
    requires s != "" && !AwkBlank(s[0]) && !AwkBlank(s[|s| - 1])
    ensures Core(s) == s
  {
  }

  lemma {:induction false} AllDigitsTaken(s: string)
    requires AllDigits(s)
    ensures TakeDigits(s) == s && DropDigits(s) == ""
  {
    if s != "" {
      AllDigitsTaken(s[1..]);
    }
  }

  /** A string of digits has its decimal value. */
  lemma DigitsAreNumbers(s: string)
    requires s != "" && AllDigits(s)
    ensures Number(s) == Some(Value(s) as real)
  {
    hide Value;
    CoreOfPlain(s);
    AllDigitsTaken(s);
    assert s + "" == s;
  }

  /** A sign, a fraction and an exponent mean what they say. */
  lemma NumberSpellings(s: string)
    requires s != "" && AllDigits(s)
    ensures Number("-" + s) == Some(-(Value(s) as real)) && Number("+" + s) == Number(s)
    ensures Number(s + ".0") == Number(s)
    ensures Number(s + "e1") == Number(s + "0") == Some((10 * Value(s)) as real)
    ensures Number(" " + s) == Number(s)
  {
    hide Value, Number;
    DigitsAreNumbers(s);
    SignedNumber(s);
    TenTimes(s);
    DigitsAreNumbers(s + "0");
    WithFraction(s);
    WithExponent(s);
    SpaceInFront(s);
  }

  lemma SpaceInFront(s: string)
    requires s != "" && AllDigits(s)
    ensures Number(" " + s) == Number(s)
  {
    hide Magnitude;
    assert (" " + s)[1..] == s;
    assert SkipBlanks(" " + s) == SkipBlanks(s);
  }

  lemma SignedNumber(s: string)
    requires s != "" && AllDigits(s)
    ensures Number("-" + s) == Some(-(Value(s) as real)) && Number("+" + s) == Some(Value(s) as real)
  {
    hide Value;
    var neg, pos := "-" + s, "+" + s;
    assert neg[1..] == s && pos[1..] == s;
    assert neg[|neg| - 1] == s[|s| - 1] == pos[|pos| - 1];
    CoreOfPlain(neg);
    CoreOfPlain(pos);
    AllDigitsTaken(s);
    assert s + "" == s;
  }

  lemma TenTimes(s: string)
    requires AllDigits(s)
    ensures AllDigits(s + "0") && Value(s + "0") == 10 * Value(s)
  {
    assert (s + "0")[..|s|] == s;
  }

  lemma {:induction false} DigitsThen(s: string, rest: string)
    requires AllDigits(s) && (rest == "" || !IsDigit(rest[0]))
    ensures TakeDigits(s + rest) == s && DropDigits(s + rest) == rest
  {
    if s == "" {
      assert s + rest == rest;
    } else {
      assert (s + rest)[1..] == s[1..] + rest;
      DigitsThen(s[1..], rest);
    }
  }

  /** A text that opens with a digit and does not end in a blank is read as it is. */
  lemma PlainNumber(t: string)
    requires t != "" && IsDigit(t[0]) && !AwkBlank(t[|t| - 1])
    ensures Number(t) == Magnitude(t)
  {
    hide Magnitude;
    CoreOfPlain(t);
  }

  lemma MagnitudeParts(s: string, rest: string, e: int)
    requires s != "" && AllDigits(s) && (rest == "" || !IsDigit(rest[0])) && Exponent(AfterFraction(rest)) == Some(e)
    ensures Magnitude(s + rest) == Some(Scaled(Value(s + Fraction(rest)), e - |Fraction(rest)|))
  {
    hide Value, Scaled, Exponent;
    DigitsThen(s, rest);
  }

  lemma WithFraction(s: string)
    requires s != "" && AllDigits(s)
    ensures Number(s + ".0") == Some(Value(s) as real)
  {
    hide Value, Number, Magnitude;
    var t := s + ".0";
    assert t[0] == s[0] && t[|t| - 1] == '0';
    PlainNumber(t);
    assert ".0"[1..] == "0" && "0"[1..] == "";
    assert TakeDigits("0") == "0" && DropDigits("0") == "";
    MagnitudeParts(s, ".0", 0);
    TenTimes(s);
    ScaledTen(Value(s));
  }

  lemma WithExponent(s: string)
    requires s != "" && AllDigits(s)
    ensures Number(s + "e1") == Some((10 * Value(s)) as real)
  {
    hide Number, Magnitude, Scaled;
    var t := s + "e1";
    assert t[0] == s[0] && t[|t| - 1] == '1';
    PlainNumber(t);
    assert "e1"[1..] == "1" && "1"[..0] == "";
    MagnitudeParts(s, "e1", 1);
    assert s + "" == s;
    ScaledTen(Value(s));
  }

  lemma ScaledTen(n: nat)
    ensures Scaled(10 * n, -1) == n as real && Scaled(n, 1) == (10 * n) as real
  {
    assert Scaled(10 * n, -1) == Scaled(10 * n, 0) / 10.0;
    assert Scaled(n, 1) == Scaled(n, 0) * 10.0;
  }

  /** Every number has another spelling that a frame's scope can hold. */
  lemma RespelledSame(s: string)
    requires Number(s).Some?
    ensures Number(Respelled(s)) == Number(s) && Respelled(s) != s && CleanText(Respelled(s))
  {
    hide Magnitude;
    var core := Core(s);
    var digits := Unsigned(core);
    var r := Respelled(s);
    MagnitudeChars(digits);
    var sign := core[..|core| - |digits|];
    assert sign == "" || sign == "+" || sign == "-";
    assert forall c :: c in r ==> NumberChar(c);
    assert r[0] in r && r[|r| - 1] in r;
    CoreOfPlain(r);
    assert Unsigned(r) == "0" + digits;
    SameMagnitude(digits);
    NumberCharsAreVisible(r);
  }

  lemma NumberCharsAreVisible(s: string)
    requires s != "" && forall c :: c in s ==> NumberChar(c)
    ensures CleanText(s)
  {
    assert s[0] in s && s[|s| - 1] in s;
  }
}

/** packs/hawk.core/fail_only.awk */
module FailOnly {
  import opened Text
  import opened Severity
  import opened HawkFrame
  import opened Decimal
  import opened Bridge
  import opened Awk

  predicate ScopePasses(scope: string, field: string) {
    scope == "" || SameValue(field, scope)
  }

  predicate Keeps(scope: string, line: string) {
    var lvl := Lower(Field(line, 5));
    (lvl == "fail" || lvl == "warn") && ScopePasses(scope, Field(line, 3))
  }

  function Kept(scope: string, lines: seq<string>): seq<string> {
    if lines == [] then []
    else
      var last := lines[|lines| - 1];
      Kept(scope, lines[..|lines| - 1]) + if Keeps(scope, last) then [last] else []
  }

  /** The thread itself; `tvar` is the value given with `-v scope=`. */
  method Run(d: Dialect, tvar: string, lines: seq<string>) returns (out: seq<string>)
    ensures out == Kept(d.escapes(tvar), lines)
  {
    hide Field, SameValue;
    var scope := d.escapes(tvar);
    out := [];
    for i := 0 to |lines|
      invariant out == Kept(scope, lines[..i])
    {
      assert lines[..i + 1][..i] == lines[..i];
      var lvl := Lower(Field(lines[i], 5));
      if lvl != "fail" && lvl != "warn" {
        continue;
      }
      if scope != "" && !SameValue(Field(lines[i], 3), scope) {
        continue;
      }
      out := out + [lines[i]];
    }
    assert lines[..|lines|] == lines;
  }

  /** The documented meaning: level warn or fail, and the chosen scope if there is one. */
  predicate Wanted(scope: string, f: Frame) {
    (f.level.Warn? || f.level.Fail?) && (scope == "" || f.scope == scope)
  }

  function Filter(scope: string, frames: seq<Frame>): seq<Frame> {
    if frames == [] then []
    else
      var last := frames[|frames| - 1];
      Filter(scope, frames[..|frames| - 1]) + if Wanted(scope, last) then [last] else []
  }

  lemma PrintedFields(codec: TimeCodec, f: Frame, now: Stamp)
    requires Lawful(codec) && CleanFrame(f) && Formattable(codec, Stamped(f, now))
    ensures Field(ToTsvLine(codec, f, now), 3) == f.scope
    ensures Field(ToTsvLine(codec, f, now), 5) == f.level.AsStr()
    ensures Field(ToTsvLine(codec, f, now), 1) == StampColumn(codec, Stamped(f, now))
  {
    hide ToTsvLine;
    CleanPrintsSevenColumns(codec, f, now);
  }

  /** For which values of the variable the scope test is an exact match on every scope. */
  lemma ScopeTestExact(scope: string)
    ensures (forall t :: CleanText(t) ==> (ScopePasses(scope, t) <==> scope == "" || t == scope))
            <==> scope == "" || Number(scope).None?
  {
    hide CleanText, Number;
    if scope != "" && Number(scope).Some? {
      RespelledSame(scope);
      assert CleanText(Respelled(scope)) && ScopePasses(scope, Respelled(scope));
    }
  }

  lemma TenHasTwoSpellings()
    ensures Number("10").Some? && Number("010") == Number("10")
  {
    hide Number, Value;
    assert AllDigits("10") && "0" + "10" == "010";
    ZeroInFront("10");
    DigitsAreNumbers("10");
    DigitsAreNumbers("010");
  }

  /** With `scope=10` the thread lets a frame of scope `010` through, which nobody asked for. */
  lemma NumericScopeLeaks(codec: TimeCodec, f: Frame, now: Stamp)
    requires Lawful(codec) && CleanFrame(f) && Formattable(codec, Stamped(f, now))
    requires f.scope == "010" && (f.level.Warn? || f.level.Fail?)
    ensures Keeps("10", ToTsvLine(codec, f, now)) && !Wanted("10", Normal(f, now))
  {
    hide ToTsvLine, Field, Number;
    PrintedFields(codec, f, now);
    LevelWord(f.level);
    TenHasTwoSpellings();
    assert |"10"| != |"010"|;
  }

  lemma KeepsIsWanted(codec: TimeCodec, scope: string, f: Frame, now: Stamp)
    requires Lawful(codec) && CleanFrame(f) && Formattable(codec, Stamped(f, now))
    requires scope == "" || Number(scope).None?
    ensures Keeps(scope, ToTsvLine(codec, f, now)) <==> Wanted(scope, Normal(f, now))
  {
    hide ToTsvLine, Field, Number;
    PrintedFields(codec, f, now);
    LevelWord(f.level);
  }

  /** Line by line, the thread's output parses to the wanted frames. */
  lemma {:induction false} KeptAreWanted(
    codec: TimeCodec, scope: string, frames: seq<Frame>, clocks: seq<Stamp>)
    requires Lawful(codec) && |clocks| == |frames| && Printable(codec, frames, clocks)
    requires scope == "" || Number(scope).None?
    ensures
      var out, wanted := Kept(scope, Printed(codec, frames, clocks)), Filter(scope, NormalAll(frames, clocks));
      |out| == |wanted| && forall i :: 0 <= i < |out| ==> Parse(codec, out[i]) == Accepted(wanted[i])
  {
    hide Parse, ToTsvLine, Keeps, CleanFrame, OneLineFrame, Formattable, Wanted, Normal, Number;
    if frames != [] {
      var n := |frames| - 1;
      KeptAreWanted(codec, scope, frames[..n], clocks[..n]);
      var lines, normal := Printed(codec, frames, clocks), NormalAll(frames, clocks);
      assert lines[..n] == Printed(codec, frames[..n], clocks[..n]);
      assert normal[..n] == NormalAll(frames[..n], clocks[..n]);
      CleanRoundTrip(codec, frames[n], clocks[n]);
      KeepsIsWanted(codec, scope, frames[n], clocks[n]);
      KeptStep(scope, lines, n);
      FilterStep(scope, normal, n);
    }
  }

  /**
   The bridge commutes with filtering: print, `fail_only`, parse equals filtering the normalised
   frames to the wanted level and scope, in order and without complaint, for a scope variable that
   is empty, or not numeric and free of backslashes. If only `r` lines are read back, they are the
   first `r` wanted frames.
   */
  lemma BridgeFilters(
    codec: TimeCodec, d: Dialect, tvar: string, frames: seq<Frame>, clocks: seq<Stamp>, r: nat)
    requires Lawful(codec) && Standard(d)
    requires |clocks| == |frames| && Printable(codec, frames, clocks)
    requires '\\' !in tvar && (tvar == "" || Number(tvar).None?)
    requires r <= |Kept(d.escapes(tvar), Printed(codec, frames, clocks))|
    ensures
      var out, wanted := Kept(d.escapes(tvar), Printed(codec, frames, clocks)), Filter(tvar, NormalAll(frames, clocks));
      && |out| == |wanted|
      && Frames(ParseAll(codec, out[..r])) == wanted[..r] && Errors(ParseAll(codec, out[..r])) == 0
  {
    hide Parse, Kept, Filter, Printed, NormalAll, Printable, Number, ParseAll, Frames, Errors;
    KeptAreWanted(codec, tvar, frames, clocks);
    var out, wanted := Kept(tvar, Printed(codec, frames, clocks)), Filter(tvar, NormalAll(frames, clocks));
    AllAccepted(codec, out[..r], wanted[..r]);
  }

  lemma {:induction false} AllAccepted(codec: TimeCodec, lines: seq<string>, frames: seq<Frame>)
    requires |lines| == |frames| && forall i :: 0 <= i < |lines| ==> Parse(codec, lines[i]) == Accepted(frames[i])
    ensures Frames(ParseAll(codec, lines)) == frames && Errors(ParseAll(codec, lines)) == 0
  {
    hide Parse, ParseAll, Frames, Errors;
    if lines == [] {
      NothingParsed(codec);
    } else {
      var n := |lines| - 1;
      AllAccepted(codec, lines[..n], frames[..n]);
      assert lines == lines[..n] + [lines[n]] && frames == frames[..n] + [frames[n]];
      ParsedStep(codec, lines[..n], lines[n], frames[n]);
    }
  }

  lemma KeptStep(scope: string, lines: seq<string>, n: nat)
    requires |lines| == n + 1
    ensures Kept(scope, lines) ==
            if Keeps(scope, lines[n]) then Kept(scope, lines[..n]) + [lines[n]] else Kept(scope, lines[..n])
  {
    hide Keeps;
  }

  lemma FilterStep(scope: string, frames: seq<Frame>, n: nat)
    requires |frames| == n + 1
    ensures Filter(scope, frames) ==
            if Wanted(scope, frames[n]) then Filter(scope, frames[..n]) + [frames[n]] else Filter(scope, frames[..n])
  {
    hide Wanted;
  }

  lemma ParsedStep(codec: TimeCodec, lines: seq<string>, line: string, f: Frame)
    requires Parse(codec, line) == Accepted(f)
    ensures Frames(ParseAll(codec, lines + [line])) == Frames(ParseAll(codec, lines)) + [f]
    ensures Errors(ParseAll(codec, lines + [line])) == Errors(ParseAll(codec, lines))
  {
    hide Parse;
    ParseAllAppend(codec, lines, line);
    FramesAppend(ParseAll(codec, lines), Parse(codec, line));
  }

  lemma NothingParsed(codec: TimeCodec)
    ensures Frames(ParseAll(codec, [])) == [] && Errors(ParseAll(codec, [])) == 0
  {
  }
}

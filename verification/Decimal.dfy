/** Decimal text of integers: `i64::to_string` and `str::parse::<i64>`. */
module Decimal {
  import opened Basics
  import opened Text

  predicate IsDigit(c: char) {
    '0' <= c <= '9'
  }

  function DigitChar(d: nat): (c: char)
    requires d < 10
    ensures IsDigit(c)
  {
    (d + '0' as int) as char
  }

  function DigitValue(c: char): (d: nat)
    requires IsDigit(c)
    ensures d < 10
  {
    c as int - '0' as int
  }

  predicate AllDigits(s: string) {
    forall i :: 0 <= i < |s| ==> IsDigit(s[i])
  }

  function Digits(n: nat): (s: string)
    ensures s != "" && AllDigits(s)
  {
    if n < 10 then [DigitChar(n)] else Digits(n / 10) + [DigitChar(n % 10)]
  }

  function Value(s: string): nat
    requires AllDigits(s)
  {
    if s == "" then 0 else Value(s[..|s| - 1]) * 10 + DigitValue(s[|s| - 1])
  }

  lemma {:induction false} ValueDigits(n: nat)
    ensures Value(Digits(n)) == n
  {
    var s := Digits(n);
    if n < 10 {
      assert s[..0] == "";
    } else {
      ValueDigits(n / 10);
      assert s[..|s| - 1] == Digits(n / 10);
    }
  }

  function Show(n: int): string {
    if n < 0 then "-" + Digits(-n) else Digits(n)
  }

  function Negate(n: int): int {
    -n
  }

  predicate IsI64(n: int) {
    -0x8000_0000_0000_0000 <= n < 0x8000_0000_0000_0000
  }

  function ParseDigits(s: string): Option<nat> {
    if s != "" && AllDigits(s) then Some(Value(s)) else None
  }

  /** An optional sign, at least one digit, and a value in range; no surrounding space. */
  function ParseI64(s: string): Option<int> {
    if s == "" then None
    else
      var negative := s[0] == '-';
      var body := if s[0] == '-' || s[0] == '+' then s[1..] else s;
      match ParseDigits(body)
      case None => None
      case Some(n) =>
        var v := if negative then Negate(n) else n;
        if IsI64(v) then Some(v) else None
  }

  /** Every 64-bit integer survives print and parse. */
  lemma ParseShow(n: int)
    requires IsI64(n)
    ensures ParseI64(Show(n)) == Some(n)
  {
    var m := if n < 0 then -n else n;
    ValueDigits(m);
    if n < 0 {
      assert ("-" + Digits(m))[1..] == Digits(m);
    } else {
      assert IsDigit(Digits(m)[0]);
    }
  }

  /** The text of an integer has no space, no separator and no line end, and is never `true`. */
  lemma ShowIsPlain(n: int)
    ensures Show(n) != "" && Trimmed(Show(n)) && Show(n) != "true"
    ensures forall c :: c in Show(n) ==> IsDigit(c) || c == '-'
  {
    var s := Show(n);
    assert forall i :: 0 <= i < |s| ==> IsDigit(s[i]) || s[i] == '-';
  }

  lemma IntTextPlain(s: string)
    requires ParseI64(s).Some?
    ensures s != "" && Trimmed(s) && forall c :: c in s ==> IsDigit(c) || c == '-' || c == '+'
  {
    var body := if s[0] == '-' || s[0] == '+' then s[1..] else s;
    assert AllDigits(body);
    assert s[|s| - 1] == body[|body| - 1];
  }

  /** Which texts are 64-bit integers, and which: an optional sign, digits, and a value in range. */
  lemma ParseI64Exact(s: string)
    ensures s != "" && AllDigits(s) ==> ParseI64(s) == (if IsI64(Value(s)) then Some(Value(s)) else None)
    ensures s != "" && AllDigits(s) ==> ParseI64("+" + s) == ParseI64(s)
    ensures s != "" && AllDigits(s) ==> ParseI64("-" + s) == (if IsI64(Negate(Value(s))) then Some(Negate(Value(s))) else None)
    ensures ParseI64(s).Some? ==>
      var body := if s[0] == '+' || s[0] == '-' then s[1..] else s;
      body != "" && AllDigits(body)
  {
    hide Value;
    assert ("+" + s)[1..] == s && ("-" + s)[1..] == s;
    if s != "" && AllDigits(s) {
      assert IsDigit(s[0]);
    }
  }
}

/** UTF-8, the form in which lines travel over the sockets. */
module Utf8 {
  import opened Basics

  type byte = b: int | 0 <= b < 256
  type bytes = seq<byte>

  function EncodeChar(c: char): (b: bytes)
    ensures 1 <= |b| <= 4
  {
    var n := c as int;
    if n < 0x80 then [n]
    else if n < 0x800 then [0xC0 + n / 64, 0x80 + n % 64]
    else if n < 0x10000 then [0xE0 + n / 64 / 64, 0x80 + n / 64 % 64, 0x80 + n % 64]
    else [0xF0 + n / 64 / 64 / 64, 0x80 + n / 64 / 64 % 64, 0x80 + n / 64 % 64, 0x80 + n % 64]
  }

  function Encode(s: string): bytes {
    if s == "" then [] else EncodeChar(s[0]) + Encode(s[1..])
  }

  predicate Continuation(b: byte) {
    0x80 <= b < 0xC0
  }

  predicate IsScalar(n: int) {
    0 <= n < 0xD800 || 0xE000 <= n < 0x11_0000
  }

  function Append6(n: int, low: int): int {
    n * 64 + (low - 0x80)
  }

  lemma Append6Splits(n: int, low: byte)
    requires Continuation(low)
    ensures Append6(n, low) / 64 == n && Append6(n, low) % 64 == low - 0x80
  {
  }

  function Minus(a: int, b: int): int {
    a - b
  }

  /** The code point of a `width`-byte form, whether or not it is a legal one. */
  function CodePoint(b: bytes, width: nat): int
    requires 1 <= width <= 4 && width <= |b|
  {
    if width == 1 then b[0]
    else if width == 2 then Append6(Minus(b[0], 0xC0), b[1])
    else if width == 3 then Append6(Append6(Minus(b[0], 0xE0), b[1]), b[2])
    else Append6(Append6(Append6(Minus(b[0], 0xF0), b[1]), b[2]), b[3])
  }

  function WidthOf(lead: byte): nat {
    if lead < 0x80 then 1 else if lead < 0xE0 then 2 else if lead < 0xF0 then 3 else 4
  }

  function Smallest(width: nat): int {
    if width <= 1 then 0 else if width == 2 then 0x80 else if width == 3 then 0x800 else 0x10000
  }

  /** The first character, refusing stray, truncated, overlong and surrogate forms. */
  function DecodeChar(b: bytes): Option<char> {
    if b == [] || 0x80 <= b[0] < 0xC0 then None
    else
      var w := WidthOf(b[0]);
      if |b| < w || exists i :: 1 <= i < w && !Continuation(b[i]) then None
      else
        var n := CodePoint(b, w);
        if IsScalar(n) && Smallest(w) <= n then Some(n as char) else None
  }

  function Decode(b: bytes): Option<string> {
    if b == [] then Some("")
    else
      match DecodeChar(b)
      case None => None
      case Some(c) =>
        var w := WidthOf(b[0]);
        if |b| < w then None
        else
          match Decode(b[w..])
          case None => None
          case Some(rest) => Some([c] + rest)
  }

  lemma DecodeEncodedChar(c: char, rest: bytes)
    ensures DecodeChar(EncodeChar(c) + rest) == Some(c)
    ensures WidthOf((EncodeChar(c) + rest)[0]) == |EncodeChar(c)|
  {
    var n := c as int;
    var b := EncodeChar(c) + rest;
    assert forall i :: 0 <= i < |EncodeChar(c)| ==> b[i] == EncodeChar(c)[i];
    assert CodePoint(b, |EncodeChar(c)|) == n;
  }

  lemma EncodeDecodedChar(b: bytes)
    requires DecodeChar(b).Some?
    ensures |b| >= WidthOf(b[0])
    ensures EncodeChar(DecodeChar(b).value) == b[..WidthOf(b[0])]
  {
    var w := WidthOf(b[0]);
    var n := CodePoint(b, w);
    assert forall i :: 1 <= i < w ==> Continuation(b[i]);
    if w == 2 {
      Append6Splits(Minus(b[0], 0xC0), b[1]);
    } else if w == 3 {
      Append6Splits(Minus(b[0], 0xE0), b[1]);
      Append6Splits(Append6(Minus(b[0], 0xE0), b[1]), b[2]);
    } else if w == 4 {
      Append6Splits(Minus(b[0], 0xF0), b[1]);
      Append6Splits(Append6(Minus(b[0], 0xF0), b[1]), b[2]);
      Append6Splits(Append6(Append6(Minus(b[0], 0xF0), b[1]), b[2]), b[3]);
    }
  }

  lemma {:induction false} DecodeEncode(s: string)
    ensures Decode(Encode(s)) == Some(s)
  {
    if s != "" {
      var e, rest := EncodeChar(s[0]), Encode(s[1..]);
      DecodeEncodedChar(s[0], rest);
      assert (e + rest)[|e|..] == rest;
      DecodeEncode(s[1..]);
      assert s == [s[0]] + s[1..];
    }
  }

  lemma {:induction false} EncodeDecode(b: bytes)
    requires Decode(b).Some?
    ensures Encode(Decode(b).value) == b
  {
    hide EncodeChar, DecodeChar, WidthOf;
    if b != [] {
      EncodeDecodedChar(b);
      var w := WidthOf(b[0]);
      EncodeDecode(b[w..]);
      var c, rest := DecodeChar(b).value, Decode(b[w..]).value;
      assert ([c] + rest)[0] == c && ([c] + rest)[1..] == rest;
      assert b == b[..w] + b[w..];
    }
  }

  lemma {:induction false} EncodeConcat(s: string, t: string)
    ensures Encode(s + t) == Encode(s) + Encode(t)
  {
    if s == "" {
      assert s + t == t;
    } else {
      assert (s + t)[1..] == s[1..] + t;
      EncodeConcat(s[1..], t);
    }
  }

  const EOL: byte := 10

  /** The newline byte stands for the newline character and for nothing else. */
  lemma {:induction false} EncodeEol(s: string)
    ensures EOL in Encode(s) <==> '\n' in s
  {
    if s != "" {
      EncodeEol(s[1..]);
      assert EOL in EncodeChar(s[0]) <==> s[0] == '\n';
      assert s == [s[0]] + s[1..];
    }
  }

  predicate Ascii(s: string) {
    forall i :: 0 <= i < |s| ==> s[i] < 128 as char
  }

  lemma {:induction false} EncodeAscii(s: string, n: nat)
    requires Ascii(s) && n <= |s|
    ensures |Encode(s)| == |s| && Encode(s)[..n] == Encode(s[..n])
  {
    if s != "" {
      if n > 0 {
        EncodeAscii(s[1..], n - 1);
        assert s[..n][1..] == s[1..][..n - 1];
      } else {
        EncodeAscii(s[1..], 0);
        assert s[..0] == "";
      }
    }
  }

  /** The encoding of a text starts with that of another only if the text does. */
  lemma {:induction false} EncodePrefix(q: string, t: string)
    requires Encode(q) <= Encode(t)
    ensures q <= t
  {
    hide EncodeChar, DecodeChar;
    if q != "" {
      var z := Encode(t)[|Encode(q)|..];
      assert Encode(t) == EncodeChar(q[0]) + (Encode(q[1..]) + z);
      DecodeEncodedChar(q[0], Encode(q[1..]) + z);
      DecodeEncodedChar(t[0], Encode(t[1..]));
      var n := |EncodeChar(q[0])|;
      assert Encode(t)[n..] == Encode(t[1..]) && Encode(t)[n..] == Encode(q[1..]) + z;
      EncodePrefix(q[1..], t[1..]);
    }
  }
}

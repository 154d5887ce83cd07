/**
 Cutting a byte stream into lines, as `BufRead::lines` and `read_line` do: at the newline
 byte, with each piece decoded on its own.
 */
module Framing {
  import opened Utf8

  function FirstEol(b: bytes): (i: nat)
    requires EOL in b
    ensures i < |b| && b[i] == EOL
  {
    if b[0] == EOL then 0 else 1 + FirstEol(b[1..])
  }

  lemma {:induction false} FirstEolAfter(m: bytes, rest: bytes)
    requires EOL !in m
    ensures EOL in m + [EOL] + rest
    ensures FirstEol(m + [EOL] + rest) == |m|
  {
    var b := m + [EOL] + rest;
    assert b[|m|] == EOL;
    if m != [] {
      assert m[0] in m;
      FirstEolAfter(m[1..], rest);
      assert b[1..] == m[1..] + [EOL] + rest;
    }
  }

  lemma {:induction false} FirstEolIsFirst(b: bytes)
    requires EOL in b
    ensures EOL !in b[..FirstEol(b)]
  {
    if b[0] != EOL {
      FirstEolIsFirst(b[1..]);
      var i := FirstEol(b[1..]);
      assert b[..i + 1] == [b[0]] + b[1..][..i];
    }
  }

  /** The pieces that a newline byte ends, without it. */
  function CompleteLines(b: bytes): seq<bytes> {
    if EOL !in b then []
    else
      var i := FirstEol(b);
      [b[..i]] + CompleteLines(b[i + 1..])
  }

  /** What stands behind the last newline byte. */
  function Remainder(b: bytes): bytes {
    if EOL !in b then b else Remainder(b[FirstEol(b) + 1..])
  }

  lemma LineFirst(m: bytes, rest: bytes)
    requires EOL !in m
    ensures CompleteLines(m + [EOL] + rest) == [m] + CompleteLines(rest)
    ensures Remainder(m + [EOL] + rest) == Remainder(rest)
  {
    var b := m + [EOL] + rest;
    FirstEolAfter(m, rest);
    assert b[..|m|] == m && b[|m| + 1..] == rest;
  }

  lemma {:induction false} LinesHaveNoEol(b: bytes, i: nat)
    requires i < |CompleteLines(b)|
    ensures EOL !in CompleteLines(b)[i]
  {
    if i == 0 {
      FirstEolIsFirst(b);
    } else {
      LinesHaveNoEol(b[FirstEol(b) + 1..], i - 1);
    }
  }

  lemma {:induction false} RemainderHasNoEol(b: bytes)
    ensures EOL !in Remainder(b)
  {
    if EOL in b {
      RemainderHasNoEol(b[FirstEol(b) + 1..]);
    }
  }

  function Concat(messages: seq<bytes>): bytes {
    if messages == [] then [] else messages[0] + Concat(messages[1..])
  }

  lemma {:induction false} ConcatAppend(messages: seq<bytes>, m: bytes)
    ensures Concat(messages + [m]) == Concat(messages) + m
  {
    if messages == [] {
      assert messages + [m] == [m];
      assert [m][1..] == [];
    } else {
      assert (messages + [m])[1..] == messages[1..] + [m];
      ConcatAppend(messages[1..], m);
    }
  }

  lemma {:induction false} ConcatSplit(a: seq<bytes>, b: seq<bytes>)
    ensures Concat(a + b) == Concat(a) + Concat(b)
  {
    if a == [] {
      assert a + b == b;
    } else {
      assert (a + b)[1..] == a[1..] + b;
      ConcatSplit(a[1..], b);
    }
  }

  /** One newline-terminated line: a newline byte at the end and nowhere else. */
  predicate OneLine(m: bytes) {
    m != [] && m[|m| - 1] == EOL && EOL !in m[..|m| - 1]
  }

  /** A message without its final byte. */
  function Body(m: bytes): bytes {
    if m == [] then [] else m[..|m| - 1]
  }

  function Bodies(messages: seq<bytes>): seq<bytes> {
    seq(|messages|, i requires 0 <= i < |messages| => Body(messages[i]))
  }

  lemma LinesOfCons(m: bytes, rest: bytes)
    requires OneLine(m)
    ensures CompleteLines(m + rest) == [Body(m)] + CompleteLines(rest)
    ensures Remainder(m + rest) == Remainder(rest)
  {
    assert m == Body(m) + [EOL];
    LineFirst(Body(m), rest);
  }

  /** Splitting the concatenation of one-line messages recovers exactly the messages. */
  lemma {:induction false} LinesOfConcat(messages: seq<bytes>)
    requires forall i :: 0 <= i < |messages| ==> OneLine(messages[i])
    ensures CompleteLines(Concat(messages)) == Bodies(messages)
    ensures Remainder(Concat(messages)) == []
  {
    if messages != [] {
      hide OneLine, Bodies, CompleteLines, Remainder;
      var rest := messages[1..];
      LinesOfConcat(rest);
      LinesOfCons(messages[0], Concat(rest));
      BodiesFront(messages[0], rest);
      assert [messages[0]] + rest == messages;
    }
  }

  /** Behind whole messages, a torn one adds no line, and a whole one adds itself. */
  lemma {:induction false} LinesOfTorn(messages: seq<bytes>, m: bytes, part: bytes)
    requires forall i :: 0 <= i < |messages| ==> OneLine(messages[i])
    requires OneLine(m) && part <= m
    ensures CompleteLines(Concat(messages) + part) == Bodies(if part == m then messages + [m] else messages)
  {
    hide OneLine, Bodies, CompleteLines;
    if messages == [] {
      assert Concat(messages) + part == part;
      TornLine(m, part);
      assert messages + [m] == [m];
    } else {
      var rest := messages[1..];
      LinesOfTorn(rest, m, part);
      assert Concat(messages) + part == messages[0] + (Concat(rest) + part);
      LinesOfCons(messages[0], Concat(rest) + part);
      BodiesFront(messages[0], rest);
      BodiesFront(messages[0], rest + [m]);
      assert [messages[0]] + rest == messages && [messages[0]] + (rest + [m]) == messages + [m];
    }
  }

  lemma TornLine(m: bytes, part: bytes)
    requires OneLine(m) && part <= m
    ensures CompleteLines(part) == Bodies(if part == m then [m] else [])
  {
    if part == m {
      LinesOfCons(m, []);
      assert m + [] == m;
    } else {
      assert part <= m[..|m| - 1];
    }
  }

  lemma BodiesFront(m: bytes, rest: seq<bytes>)
    ensures Bodies([m] + rest) == [Body(m)] + Bodies(rest)
  {
  }

  /** One turn of a reading loop: a decoded line, or a read error, which bytes that are not UTF-8 cause too. */
  datatype Item = Line(text: string) | Unreadable

  function StripCr(s: string): string {
    if s != "" && s[|s| - 1] == '\r' then s[..|s| - 1] else s
  }

  /** `lines()` on a line that was ended by a newline. */
  function LineItem(chunk: bytes): Item {
    match Decode(chunk)
    case Some(s) => Line(StripCr(s))
    case None => Unreadable
  }

  /** `read_line`, which keeps the newline. */
  function RawItem(chunk: bytes): Item {
    match Decode(chunk)
    case Some(s) => Line(s + "\n")
    case None => Unreadable
  }

  function LastItem(chunk: bytes): seq<Item> {
    if chunk == [] then []
    else
      match Decode(chunk)
      case Some(s) => [Line(s)]
      case None => [Unreadable]
  }

  function LineItems(lines: seq<bytes>): seq<Item> {
    seq(|lines|, i requires 0 <= i < |lines| => LineItem(lines[i]))
  }

  function RawItems(lines: seq<bytes>): seq<Item> {
    seq(|lines|, i requires 0 <= i < |lines| => RawItem(lines[i]))
  }

  /** Everything `reader.lines()` can yield of `b`; the unended piece only after end of file. */
  function SocketItems(b: bytes, eof: bool): seq<Item> {
    LineItems(CompleteLines(b)) + if eof then LastItem(Remainder(b)) else []
  }

  /** Everything a `read_line` loop can yield of `b`. */
  function StdinItems(b: bytes, eof: bool): seq<Item> {
    RawItems(CompleteLines(b)) + if eof then LastItem(Remainder(b)) else []
  }

  /** A decoded piece has no newline character, whatever the bytes were. */
  lemma DecodedIsOneLine(chunk: bytes)
    requires EOL !in chunk && Decode(chunk).Some?
    ensures '\n' !in Decode(chunk).value
  {
    EncodeDecode(chunk);
    EncodeEol(Decode(chunk).value);
  }

  /** `lines()` leaves no newline character; `read_line` may leave one, at the very end. */
  predicate NoEolItem(item: Item) {
    item.Line? ==> '\n' !in item.text
  }

  predicate EolAtEndItem(item: Item) {
    item.Line? ==> '\n' !in item.text || ('\n' !in item.text[..|item.text| - 1])
  }

  lemma ChunkItemsAreOneLine(chunk: bytes)
    requires EOL !in chunk
    ensures NoEolItem(LineItem(chunk)) && EolAtEndItem(RawItem(chunk))
    ensures forall item :: item in LastItem(chunk) ==> NoEolItem(item)
  {
    if Decode(chunk).Some? {
      DecodedIsOneLine(chunk);
      var s := Decode(chunk).value;
      assert (s + "\n")[..|s|] == s;
    }
  }

  lemma ItemsAreOneLine(b: bytes, eof: bool)
    ensures forall i :: 0 <= i < |SocketItems(b, eof)| ==> NoEolItem(SocketItems(b, eof)[i])
    ensures forall i :: 0 <= i < |StdinItems(b, eof)| ==> EolAtEndItem(StdinItems(b, eof)[i])
  {
    var lines := CompleteLines(b);
    forall i | 0 <= i < |lines| ensures NoEolItem(LineItem(lines[i])) && EolAtEndItem(RawItem(lines[i])) {
      LinesHaveNoEol(b, i);
      ChunkItemsAreOneLine(lines[i]);
    }
    RemainderHasNoEol(b);
    ChunkItemsAreOneLine(Remainder(b));
  }

  /** A text without newline, sent with one behind it, is one line and is read back. */
  lemma SentLine(text: string)
    requires '\n' !in text
    ensures OneLine(Encode(text + "\n")) && Body(Encode(text + "\n")) == Encode(text)
    ensures LineItem(Encode(text)) == Line(StripCr(text))
  {
    EncodeConcat(text, "\n");
    assert Encode("\n") == [EOL] by {
      assert "\n"[1..] == "";
      assert Encode("\n") == EncodeChar('\n') + Encode("");
    }
    EncodeEol(text);
    DecodeEncode(text);
    assert Encode(text + "\n")[..|Encode(text)|] == Encode(text);
  }

  // ----- Streams that end in the middle of a line

  lemma {:induction false} FirstEolStays(b: bytes, part: bytes)
    requires EOL in b
    ensures EOL in b + part && FirstEol(b + part) == FirstEol(b)
  {
    if b[0] != EOL {
      assert (b + part)[1..] == b[1..] + part;
      FirstEolStays(b[1..], part);
    }
  }

  lemma UnfinishedStep(b: bytes, part: bytes, i: nat)
    requires EOL in b && EOL in b + part && FirstEol(b) == FirstEol(b + part) == i
    requires CompleteLines(b[i + 1..] + part) == CompleteLines(b[i + 1..])
    requires Remainder(b[i + 1..] + part) == Remainder(b[i + 1..]) + part
    ensures CompleteLines(b + part) == CompleteLines(b) && Remainder(b + part) == Remainder(b) + part
  {
    hide FirstEol;
    assert (b + part)[..i] == b[..i] && (b + part)[i + 1..] == b[i + 1..] + part;
    assert CompleteLines(b) == [b[..i]] + CompleteLines(b[i + 1..]);
    assert CompleteLines(b + part) == [(b + part)[..i]] + CompleteLines((b + part)[i + 1..]);
  }

  /** More bytes without a newline only lengthen the unfinished line. */
  lemma {:induction false} UnfinishedLine(b: bytes, part: bytes)
    requires EOL !in part
    ensures CompleteLines(b + part) == CompleteLines(b) && Remainder(b + part) == Remainder(b) + part
    decreases |b|
  {
    if EOL in b {
      FirstEolStays(b, part);
      var i := FirstEol(b);
      UnfinishedLine(b[i + 1..], part);
      UnfinishedStep(b, part, i);
    }
  }
}

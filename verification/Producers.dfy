/**
 The line producers of hawkd: `spawn_stdin_source` (crates/hawkd/src/main.rs) and
 `handle_ingest_client` with its error receipts (crates/hawkd/src/unix_ingest.rs).

 The clock is an input: one reading for each line handled.
 */
module Producers {
  import opened Basics
  import opened Text
  import opened Severity
  import opened KvBag
  import opened HawkFrame
  import opened Utf8
  import opened Framing

  /** What the producers take from outside: RFC 3339 conversion and the `{:?}` text of an error. */
  datatype World = World(codec: TimeCodec, debug: ParseError -> string)

  /** A derived `Debug` text escapes control characters, so it stays on one line. */
  ghost predicate Sane(w: World) {
    Lawful(w.codec) && forall e :: '\n' !in w.debug(e)
  }

  /** What a producer sends into the spine channel, before it is turned into bytes. */
  datatype Message =
    | FrameOut(frame: Frame, now: Stamp)
    | Notice(error: ParseError)

  function TextOf(w: World, m: Message): string {
    match m
    case FrameOut(f, now) => ToTsvLine(w.codec, f, now)
    case Notice(e) => "# hawkd strict parse error: " + w.debug(e)
  }

  function Wire(w: World, m: Message): bytes {
    Encode(TextOf(w, m) + "\n")
  }

  function WireAll(w: World, ms: seq<Message>): seq<bytes> {
    seq(|ms|, i requires 0 <= i < |ms| => Wire(w, ms[i]))
  }

  ghost predicate SoundMessage(w: World, m: Message) {
    m.FrameOut? ==> OneLineFrame(m.frame) && Formattable(w.codec, Stamped(m.frame, m.now))
  }

  lemma TextIsOneLine(w: World, m: Message)
    requires Sane(w) && SoundMessage(w, m)
    ensures '\n' !in TextOf(w, m)
  {
    if m.FrameOut? {
      PrintsOneLine(w.codec, m.frame, m.now);
    }
  }

  /** Every message is one newline-terminated line, and `lines()` gives its text back. */
  lemma MessageIsOneLine(w: World, m: Message)
    requires Sane(w) && SoundMessage(w, m)
    ensures OneLine(Wire(w, m))
    ensures LineItem(Body(Wire(w, m))) == Line(StripCr(TextOf(w, m)))
  {
    hide TextOf, SoundMessage, Encode;
    TextIsOneLine(w, m);
    SentLine(TextOf(w, m));
  }

  lemma {:induction false} HashIsIgnored(codec: TimeCodec, s: string)
    requires s != "" && s[0] == '#'
    ensures Parse(codec, s) == Ignored
  {
    TrimEolKeepsHead(s);
    var line := TrimEol(s);
    assert TrimStart(line) == line;
  }

  /** What both readers of the source hand to the parser: no newline but at the end. */
  predicate OneLineItem(item: Item) {
    item.Line? ==> '\n' !in TrimEol(item.text)
  }

  lemma EolTrimmed(item: Item)
    requires NoEolItem(item) || EolAtEndItem(item)
    ensures OneLineItem(item)
  {
    if item.Line? {
      TrimEolKeepsOut(item.text);
      if '\n' in item.text {
        var n := |item.text| - 1;
        assert item.text == item.text[..n] + [item.text[n]];
        TrimEolKeepsOut(item.text[..n]);
      }
    }
  }

  lemma StripCrParses(codec: TimeCodec, s: string)
    ensures Parse(codec, StripCr(s)) == Parse(codec, s)
  {
    assert TrimEol(StripCr(s)) == TrimEol(s);
  }

  /** A reader that parses a message's line sees the frame it carries, or nothing for a notice. */
  lemma MessageHeard(w: World, m: Message)
    requires Sane(w) && SoundMessage(w, m)
    ensures Parse(w.codec, StripCr(TextOf(w, m))) == Parse(w.codec, TextOf(w, m))
    ensures m.Notice? ==> Parse(w.codec, TextOf(w, m)) == Ignored
    ensures m.FrameOut? ==> Parse(w.codec, TextOf(w, m)).Accepted?
    ensures m.FrameOut? ==> Parse(w.codec, TextOf(w, m)).frame.ts == Some(Stamped(m.frame, m.now))
    ensures m.FrameOut? && CleanFrame(m.frame) ==> Parse(w.codec, TextOf(w, m)) == Accepted(Normal(m.frame, m.now))
  {
    StripCrParses(w.codec, TextOf(w, m));
    if m.FrameOut? {
      PrintedIsAccepted(w.codec, m.frame, m.now);
      if CleanFrame(m.frame) {
        CleanRoundTrip(w.codec, m.frame, m.now);
      }
    } else {
      HashIsIgnored(w.codec, TextOf(w, m));
    }
  }

  // ----- Error receipts

  const CLIP_BYTES: nat := 240

  /** The prefix of exactly `n` bytes, if a character ends there. */
  function TakeBytes(s: string, n: nat): Option<string> {
    if n == 0 then Some("")
    else if s == "" || |EncodeChar(s[0])| > n then None
    else
      match TakeBytes(s[1..], n - |EncodeChar(s[0])|)
      case None => None
      case Some(rest) => Some([s[0]] + rest)
  }

  lemma {:induction false} TakeBytesIsPrefix(s: string, n: nat)
    requires TakeBytes(s, n).Some?
    ensures TakeBytes(s, n).value <= s && |Encode(TakeBytes(s, n).value)| == n
  {
    if n > 0 {
      TakeBytesIsPrefix(s[1..], n - |EncodeChar(s[0])|);
    }
  }

  lemma {:induction false} TakeBytesFindsBoundary(s: string, i: nat)
    requires i <= |s|
    ensures TakeBytes(s, |Encode(s[..i])|) == Some(s[..i])
  {
    if i == 0 {
      assert s[..i] == "";
    } else {
      TakeBytesFindsBoundary(s[1..], i - 1);
      assert s[..i][1..] == s[1..][..i - 1];
      assert s[..i] == [s[0]] + s[1..][..i - 1];
    }
  }

  /** A character of `s` ends at byte `n`: `is_char_boundary`. */
  ghost predicate CharBoundary(s: string, n: nat) {
    exists i :: 0 <= i <= |s| && |Encode(s[..i])| == n
  }

  /** The first 240 bytes and three dots. */
  ghost predicate ClippedAt240(raw: string, clipped: string) {
    exists i :: 0 <= i <= |raw| && |Encode(raw[..i])| == 240 && clipped == raw[..i] + "..."
  }

  /** `truncate` panics off a character boundary; `None` stands for that panic. */
  function Clip(raw: string): Option<string> {
    if |Encode(raw)| <= CLIP_BYTES then Some(raw)
    else
      match TakeBytes(raw, CLIP_BYTES)
      case None => None
      case Some(p) => Some(p + "...")
  }

  /** The receipt is built unless byte 240 of a longer line falls inside a character. */
  lemma ClipExact(raw: string)
    ensures Clip(raw).Some? <==> |Encode(raw)| <= CLIP_BYTES || CharBoundary(raw, CLIP_BYTES)
    ensures Clip(raw).Some? ==> forall c :: c in Clip(raw).value ==> c in raw || c == '.'
    ensures Clip(raw).Some? ==> |Encode(Clip(raw).value)| <= CLIP_BYTES + 3
    ensures Clip(raw).Some? && |Encode(raw)| <= 240 ==> Clip(raw).value == raw
    ensures Clip(raw).Some? && |Encode(raw)| > 240 ==> ClippedAt240(raw, Clip(raw).value)
  {
    if TakeBytes(raw, CLIP_BYTES).Some? {
      var p := TakeBytes(raw, CLIP_BYTES).value;
      TakeBytesIsPrefix(raw, CLIP_BYTES);
      assert raw[..|p|] == p;
      EncodeConcat(p, "...");
      assert |Encode("...")| == 3 by {
        EncodeConcat(".", "..");
        EncodeConcat(".", ".");
        assert Encode(".") == EncodeChar('.') + Encode("");
      }
    }
    if CharBoundary(raw, CLIP_BYTES) {
      var i :| 0 <= i <= |raw| && |Encode(raw[..i])| == CLIP_BYTES;
      TakeBytesFindsBoundary(raw, i);
    }
  }

  /** A wide character over byte 240: nothing behind it can help. */
  lemma ClipPanics(front: string, c: char, rest: string)
    requires Ascii(front) && |front| == CLIP_BYTES - 1 && c as int >= 128
    ensures Clip(front + [c] + rest).None?
  {
    var raw := front + [c] + rest;
    var wide := front + [c];
    EncodeConcat(wide, rest);
    EncodeConcat(front, [c]);
    EncodeAscii(front, 0);
    assert [c][1..] == "" && Encode([c]) == EncodeChar(c) + Encode("");
    forall i | 0 <= i <= |raw| ensures |Encode(raw[..i])| != CLIP_BYTES {
      if i <= |front| {
        assert raw[..i] == front[..i];
        EncodeAscii(front, i);
      } else {
        assert raw[..i] == wide + raw[..i][|wide|..];
        EncodeConcat(wide, raw[..i][|wide|..]);
      }
    }
    ClipExact(raw);
  }

  function ReceiptFrame(now: Stamp, path: string, clipped: string, err: string): Frame {
    Frame(Some(now), "RECEIPT_EVENT", "hawkd", "ingest", Warn, "ingest parse error",
          map["ingest_path" := path, "error" := err, "raw" := clipped])
  }

  lemma ReceiptHead(r: Frame, now: Stamp, path: string, clipped: string, err: string)
    requires r == ReceiptFrame(now, path, clipped, err)
    ensures CleanHead(r)
  {
  }

  lemma ReceiptWords()
    ensures '\n' !in "ingest_path" && '\n' !in "error" && '\n' !in "raw"
  {
  }

  lemma ReceiptOneLine(now: Stamp, path: string, clipped: string, err: string)
    requires '\n' !in path && '\n' !in clipped && '\n' !in err
    ensures OneLineFrame(ReceiptFrame(now, path, clipped, err))
  {
    var kv := ReceiptFrame(now, path, clipped, err).kv;
    ReceiptWords();
    assert kv.Keys == {"ingest_path", "error", "raw"};
  }

  /** The fixed columns of an error receipt. */
  ghost predicate IsReceipt(f: Frame) {
    && CleanHead(f) && f.ts.Some?
    && f.kind == "RECEIPT_EVENT" && f.scope == "hawkd" && f.id == "ingest"
    && f.level == Warn && f.msg == "ingest parse error"
  }

  lemma ReceiptIsReceipt(now: Stamp, path: string, clipped: string, err: string)
    ensures IsReceipt(ReceiptFrame(now, path, clipped, err))
  {
    hide CleanHead;
    ReceiptHead(ReceiptFrame(now, path, clipped, err), now, path, clipped, err);
  }

  function Receipt(now: Stamp, path: string, raw: string, err: string): Option<Frame> {
    match Clip(raw)
    case None => None
    case Some(clipped) => Some(ReceiptFrame(now, path, clipped, err))
  }

  /**
   The bag of a receipt: the socket's path, the error text, and the line itself if it has at most 240 bytes,
   else its first 240 bytes and three dots.
   */
  lemma ReceiptBag(now: Stamp, path: string, raw: string, err: string)
    requires Receipt(now, path, raw, err).Some?
    ensures
      var kv := Receipt(now, path, raw, err).value.kv;
      && kv.Keys == {"ingest_path", "error", "raw"}
      && kv["ingest_path"] == path && kv["error"] == err
      && (if |Encode(raw)| <= 240 then kv["raw"] == raw else ClippedAt240(raw, kv["raw"]))
  {
    hide Encode, Clip, ClippedAt240;
    ClipExact(raw);
  }

  /** `parse_error_frame`; `None` stands for the panic of `truncate`. */
  method ParseErrorFrame(now: Stamp, path: string, raw: string, err: string) returns (f: Option<Frame>)
    ensures f == Receipt(now, path, raw, err)
  {
    var kv: Bag := map[];
    kv := kv["ingest_path" := path];
    kv := kv["error" := err];
    var clipped := raw;
    if |Encode(clipped)| > CLIP_BYTES {
      var cut := TakeBytes(clipped, CLIP_BYTES);
      if cut.None? {
        return None;
      }
      clipped := cut.value;
      clipped := clipped + "...";
    }
    kv := kv["raw" := clipped];
    assert kv == map["ingest_path" := path, "error" := err, "raw" := clipped];
    f := Some(Frame(Some(now), "RECEIPT_EVENT", "hawkd", "ingest", Warn, "ingest parse error", kv));
  }

  /**
   Every receipt reparses with its stamp, kind, scope, id, level and message intact, whatever
   tabs, semicolons or spaces the raw line, the path and the error text hold.
   */
  lemma ReceiptReparses(codec: TimeCodec, now: Stamp, path: string, raw: string, err: string)
    requires Lawful(codec) && Formattable(codec, now)
    requires |Encode(raw)| <= CLIP_BYTES || CharBoundary(raw, CLIP_BYTES)
    ensures
      var r := Receipt(now, path, raw, err);
      && r.Some?
      && var p := Parse(codec, ToTsvLine(codec, r.value, now));
      && p.Accepted?
      && p.frame.ts == Some(now)
      && p.frame.kind == "RECEIPT_EVENT"
      && p.frame.scope == "hawkd"
      && p.frame.id == "ingest"
      && p.frame.level == Warn
      && p.frame.msg == "ingest parse error"
  {
    ClipExact(raw);
    var r := Receipt(now, path, raw, err).value;
    ReceiptHead(r, now, path, Clip(raw).value, err);
    hide Parse, ToTsvLine, Clip, CleanHead;
    HeadRoundTrip(codec, r, now);
  }

  lemma ReceiptHasSevenColumns(codec: TimeCodec, now: Stamp, path: string, raw: string, err: string)
    requires Lawful(codec) && Formattable(codec, now)
    requires Receipt(now, path, raw, err).Some?
    ensures
      var line := ToTsvLine(codec, Receipt(now, path, raw, err).value, now);
      |Split(line, '\t')| == 7 <==> '\t' !in path && '\t' !in err && '\t' !in Clip(raw).value
  {
    hide Split, ToTsvLine, Clip, KvText, CleanHead;
    var r := Receipt(now, path, raw, err).value;
    ReceiptHead(r, now, path, Clip(raw).value, err);
    HeadColumnCount(codec, r, now);
    if '\t' !in path && '\t' !in err && '\t' !in Clip(raw).value {
      KvTextKeepsOut(r.kv, '\t');
    } else {
      KvTextShows(r.kv, "ingest_path", '\t');
      KvTextShows(r.kv, "error", '\t');
      KvTextShows(r.kv, "raw", '\t');
    }
  }

  /** A line that is refused and whose receipt has a column too many. */
  lemma TabbedReceipt(codec: TimeCodec, now: Stamp, path: string, err: string)
    requires Lawful(codec) && Formattable(codec, now)
    ensures Parse(codec, "a\tb").Rejected? && Receipt(now, path, "a\tb", err).Some?
    ensures |Split(ToTsvLine(codec, Receipt(now, path, "a\tb", err).value, now), '\t')| != 7
  {
    hide ToTsvLine, Encode, Split, TakeBytes;
    var raw := "a\tb";
    assert Trimmed(raw) && raw == "a" + ['\t'] + "b";
    TrimIdentity(raw);
    TrimEolTrimmed(raw);
    SplitConcat("a", "b", '\t');
    SplitWhole("a", '\t');
    SplitWhole("b", '\t');
    assert raw[1] == '\t';
    EncodeAscii(raw, 0);
    ReceiptHasSevenColumns(codec, now, path, raw, err);
  }

  // ----- The reading loops

  /** One turn of a reading loop: what is sent, and whether the loop ends. */
  datatype Reply = Reply(said: Option<Message>, stops: bool)

  /** The two line sources: stdin, and an ingest connection on the socket at `path`. */
  datatype Source = Stdin | Ingest(path: string)

  function ReplyTo(w: World, strict: bool, src: Source, item: Item, now: Stamp): Reply {
    match item
    case Unreadable => Reply(None, true)
    case Line(text) =>
      match Parse(w.codec, text)
      case Accepted(f) => Reply(Some(FrameOut(f, now)), false)
      case Ignored => Reply(None, false)
      case Rejected(e) =>
        match src
        case Stdin => if strict then Reply(Some(Notice(e)), true) else Reply(None, false)
        case Ingest(path) =>
          match Receipt(now, path, text, w.debug(e))
          case None => Reply(None, true)
          case Some(r) => Reply(Some(FrameOut(r, now)), strict)
  }

  function Replies(w: World, strict: bool, src: Source, items: seq<Item>, clocks: seq<Stamp>): seq<Reply>
    requires |clocks| == |items|
  {
    seq(|items|, i requires 0 <= i < |items| => ReplyTo(w, strict, src, items[i], clocks[i]))
  }

  function SaidIn(r: Reply): seq<Message> {
    if r.said.Some? then [r.said.value] else []
  }

  /** Everything said up to and including the first reply that ends the loop. */
  function Talk(replies: seq<Reply>): seq<Message> {
    if replies == [] then []
    else if replies[0].stops then SaidIn(replies[0])
    else SaidIn(replies[0]) + Talk(replies[1..])
  }

  lemma WireAllNone(w: World)
    ensures WireAll(w, []) == []
  {
  }

  lemma WireAllAppend(w: World, ms: seq<Message>, m: Message)
    ensures WireAll(w, ms + [m]) == WireAll(w, ms) + [Wire(w, m)]
  {
  }

  /** `spawn_stdin_source`. */
  method StdinSource(w: World, strict: bool, items: seq<Item>, clocks: seq<Stamp>) returns (sent: seq<bytes>)
    requires |clocks| == |items|
    ensures sent == WireAll(w, Talk(Replies(w, strict, Stdin, items, clocks)))
  {
    hide Parse, ToTsvLine, Encode, WireAll, Talk;
    sent := [];
    ghost var replies := Replies(w, strict, Stdin, items, clocks);
    ghost var said: seq<Message> := [];
    WireAllNone(w);
    assert replies[0..] == replies;
    var i := 0;
    while i < |items|
      invariant 0 <= i <= |items|
      invariant sent == WireAll(w, said)
      invariant Talk(replies) == said + Talk(replies[i..])
    {
      assert replies[i] == ReplyTo(w, strict, Stdin, items[i], clocks[i]);
      TalkStep(replies, i, said);
      if items[i].Unreadable? {
        return;
      }
      match Parse(w.codec, items[i].text) {
        case Accepted(frame) =>
          var out := ToTsvLine(w.codec, frame, clocks[i]) + "\n";
          WireAllAppend(w, said, FrameOut(frame, clocks[i]));
          sent := sent + [Encode(out)];
          said := said + [FrameOut(frame, clocks[i])];
        case Ignored =>
        case Rejected(e) =>
          if strict {
            var msg := "# hawkd strict parse error: " + w.debug(e) + "\n";
            WireAllAppend(w, said, Notice(e));
            sent := sent + [Encode(msg)];
            return;
          }
      }
      i := i + 1;
    }
    TalkDone(replies, said);
  }

  /** `handle_ingest_client`. */
  method HandleIngestClient(w: World, strict: bool, path: string, items: seq<Item>, clocks: seq<Stamp>)
    returns (sent: seq<bytes>)
    requires |clocks| == |items|
    ensures sent == WireAll(w, Talk(Replies(w, strict, Ingest(path), items, clocks)))
  {
    hide Parse, ToTsvLine, Receipt, Encode, WireAll, Talk;
    sent := [];
    ghost var replies := Replies(w, strict, Ingest(path), items, clocks);
    ghost var said: seq<Message> := [];
    WireAllNone(w);
    assert replies[0..] == replies;
    var i := 0;
    while i < |items|
      invariant 0 <= i <= |items|
      invariant sent == WireAll(w, said)
      invariant Talk(replies) == said + Talk(replies[i..])
    {
      assert replies[i] == ReplyTo(w, strict, Ingest(path), items[i], clocks[i]);
      TalkStep(replies, i, said);
      if items[i].Unreadable? {
        return;
      }
      match Parse(w.codec, items[i].text) {
        case Accepted(frame) =>
          var out := ToTsvLine(w.codec, frame, clocks[i]) + "\n";
          WireAllAppend(w, said, FrameOut(frame, clocks[i]));
          sent := sent + [Encode(out)];
          said := said + [FrameOut(frame, clocks[i])];
        case Ignored =>
        case Rejected(e) =>
          var errFrame := ParseErrorFrame(clocks[i], path, items[i].text, w.debug(e));
          if errFrame.None? {
            return;
          }
          var out := ToTsvLine(w.codec, errFrame.value, clocks[i]) + "\n";
          WireAllAppend(w, said, FrameOut(errFrame.value, clocks[i]));
          sent := sent + [Encode(out)];
          said := said + [FrameOut(errFrame.value, clocks[i])];
          if strict {
            return;
          }
      }
      i := i + 1;
    }
    TalkDone(replies, said);
  }

  function Grown(said: seq<Message>, r: Reply): seq<Message> {
    if r.said.Some? then said + [r.said.value] else said
  }

  /** A loop that has said `said` before reply `i` has said one more after it. */
  lemma TalkStep(replies: seq<Reply>, i: nat, said: seq<Message>)
    requires i < |replies| && Talk(replies) == said + Talk(replies[i..])
    ensures Talk(replies) ==
            if replies[i].stops then Grown(said, replies[i]) else Grown(said, replies[i]) + Talk(replies[i + 1..])
  {
    hide SaidIn, Grown;
    var rest := replies[i..];
    assert rest[0] == replies[i] && rest[1..] == replies[i + 1..];
    GrownIs(said, replies[i]);
    assert replies[i].stops ==> Talk(rest) == SaidIn(replies[i]);
    if !replies[i].stops {
      assert Talk(rest) == SaidIn(replies[i]) + Talk(replies[i + 1..]);
      Associate(said, SaidIn(replies[i]), Talk(replies[i + 1..]));
    }
  }

  lemma GrownIs(said: seq<Message>, r: Reply)
    ensures said + SaidIn(r) == Grown(said, r)
  {
  }

  lemma Associate<T>(a: seq<T>, b: seq<T>, c: seq<T>)
    ensures a + (b + c) == (a + b) + c
  {
  }

  lemma TalkDone(replies: seq<Reply>, said: seq<Message>)
    requires Talk(replies) == said + Talk(replies[|replies|..])
    ensures Talk(replies) == said
  {
  }
}

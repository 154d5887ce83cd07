/**
 The mirror of a client that hawkd dropped: at the end of the stream, `lines()` hands what is left of the
 fatal line to the parser as if it were a line (crates/hawk/src/io.rs:77-97).
 */
module ClosedMirror {
  import opened Basics
  import opened Text
  import opened Ordering
  import opened Decimal
  import opened KvBag
  import opened HawkFrame
  import opened Utf8
  import opened Framing
  import opened Producers
  import opened Clients
  import opened Spine
  import opened Entities
  import opened Mirror
  import opened Reader
  import opened EndToEnd
  import opened MirrorRefinement
  import opened Cuts

  /** Everything a mirror shows that has read all of `received` and then the end of the stream. */
  function ClosedView(codec: TimeCodec, strict: bool, received: bytes, clock: nat -> Stamp, options: Options): View {
    IngestAll(codec, Fresh(options), Deliver(strict, Readings(codec, SocketItems(received, true))), clock)
  }

  /** The frame, if any, as which an unfinished line is accepted. */
  function TornFrame(codec: TimeCodec, rest: bytes): Option<Frame> {
    match Decode(rest)
    case None => None
    case Some(text) =>
      match Parse(codec, text)
      case Accepted(f) => Some(f)
      case _ => None
  }

  /** A table with the row of a torn frame on top. */
  function Overlaid(table: map<string, Entity>, torn: Option<Frame>): map<string, Entity>
    requires torn.Some? ==> torn.value.ts.Some?
  {
    match torn
    case None => table
    case Some(f) => table[KeyOf(f) := EntityOf(f, f.ts.value)]
  }

  // ----- One more reading at the end

  lemma {:induction false} LastReading(strict: bool, quiet: seq<Reading>, r: Reading)
    requires forall i :: 0 <= i < |quiet| ==> Quiet(quiet[i])
    ensures Deliver(strict, quiet + [r]) == Deliver(strict, quiet) + MsgsOf(r)
  {
    hide MsgsOf;
    if quiet == [] {
      assert quiet + [r] == [r] && [r][1..] == [];
      assert MsgsOf(r) + [] == MsgsOf(r) == [] + MsgsOf(r);
    } else {
      assert (quiet + [r])[1..] == quiet[1..] + [r];
      LastReading(strict, quiet[1..], r);
      assert MsgsOf(quiet[0]) + (Deliver(strict, quiet[1..]) + MsgsOf(r)) ==
             (MsgsOf(quiet[0]) + Deliver(strict, quiet[1..])) + MsgsOf(r);
    }
  }

  lemma ErrorAtEnd(codec: TimeCodec, options: Options, msgs: seq<IngestMsg>, e: IngestMsg, clock: nat -> Stamp)
    requires !e.FrameMsg?
    ensures
      var before, v := IngestAll(codec, Fresh(options), msgs, clock), IngestAll(codec, Fresh(options), msgs + [e], clock);
      && v.entities == before.entities && v.framesSeen == before.framesSeen
      && v.parseErrors + v.ioErrors == before.parseErrors + before.ioErrors + 1
  {
    hide IngestAll, Table, Compact;
    IngestAllShape(codec, options, msgs, clock);
    IngestAllShape(codec, options, msgs + [e], clock);
    assert (msgs + [e])[..|msgs|] == msgs;
    assert FiledFrames(msgs, clock) + [] == FiledFrames(msgs, clock);
  }

  function FrameIn(r: Reading): Option<Frame> {
    match r
    case Heard(Accepted(f)) => Some(f)
    case _ => None
  }

  /** A quiet stream with one more reading behind it. */
  lemma OneMoreReading(
    codec: TimeCodec, strict: bool, quiet: seq<Reading>, r: Reading, frames: seq<Frame>, clock: nat -> Stamp, options: Options)
    requires forall i :: 0 <= i < |quiet| ==> Quiet(quiet[i])
    requires FramesHeard(quiet) == frames && forall i :: 0 <= i < |frames| ==> frames[i].ts.Some?
    requires FrameIn(r).Some? ==> FrameIn(r).value.ts.Some?
    ensures
      var v := IngestAll(codec, Fresh(options), Deliver(strict, quiet + [r]), clock);
      && v.entities == Overlaid(Table(FileAll(frames)), FrameIn(r))
      && v.framesSeen == |frames| + (if FrameIn(r).Some? then 1 else 0)
      && v.parseErrors + v.ioErrors == if Quiet(r) then 0 else 1
  {
    hide IngestAll, Deliver, Table, FileAll, KeyOf, EntityOf, TailOf;
    if Quiet(r) {
      var more := quiet + [r];
      FramesHeardConcat(quiet, [r]);
      assert [r][1..] == [];
      if FrameIn(r).Some? {
        TableAppend(frames, r.parsed.frame);
        assert FramesHeard([r]) == [r.parsed.frame];
        QuietView(codec, strict, more, frames + [r.parsed.frame], clock, options);
      } else {
        assert FramesHeard([r]) == [];
        assert frames + [] == frames;
        QuietView(codec, strict, more, frames, clock, options);
      }
    } else {
      LastReading(strict, quiet, r);
      QuietView(codec, strict, quiet, frames, clock, options);
      ErrorAtEnd(codec, options, Deliver(strict, quiet), MsgsOf(r)[0], clock);
    }
  }

  // ----- The unfinished line of a connection

  lemma ReadingsAtEof(codec: TimeCodec, received: bytes)
    ensures Readings(codec, SocketItems(received, true)) ==
            ReadingsOf(codec, received) + Readings(codec, LastItem(Remainder(received)))
  {
    hide CompleteLines, Remainder, LastItem, ReadingOf, LineItem;
  }

  lemma LastItemReading(codec: TimeCodec, rest: bytes)
    requires rest != []
    ensures |Readings(codec, LastItem(rest))| == 1 && FrameIn(Readings(codec, LastItem(rest))[0]) == TornFrame(codec, rest)
  {
    hide Parse, Decode;
  }

  lemma NothingTorn(codec: TimeCodec)
    ensures Readings(codec, LastItem([])) == [] && TornFrame(codec, []) == None
  {
    hide ParseColumns;
    assert TrimEol("") == "" && Trim("") == "";
  }

  /** What of a received stream is left without a newline: the piece of the last message, or the greeting with it. */
  lemma RestOf(cfg: Config, greeting: bytes, ms: seq<Message>, part: bytes)
    requires Sane(cfg.w) && AllSound(cfg.w, ms) && greeting <= Banner(cfg) && EOL !in part
    ensures
      var cut := greeting != [] && greeting != Banner(cfg) && ms == [];
      Remainder(greeting + Concat(WireAll(cfg.w, ms)) + part) == if cut then greeting + part else part
  {
    hide Encode, Banner, Wire, SoundMessage, Remainder, CompleteLines, OneLine;
    var wires := WireAll(cfg.w, ms);
    MessagesFinished(cfg.w, ms);
    UnfinishedLine(greeting + Concat(wires), part);
    assert [] + part == part;
    if greeting == [] {
      assert greeting + Concat(wires) == Concat(wires);
    } else if greeting == Banner(cfg) {
      BannerOnlyIfEnabled(cfg);
      BannerReading(cfg);
      LinesOfCons(greeting, Concat(wires));
    } else {
      CutGreetingRest(cfg, greeting, ms);
    }
  }

  lemma NoEolRemains(b: bytes)
    requires EOL !in b
    ensures Remainder(b) == b
  {
  }

  lemma MessagesFinished(w: World, ms: seq<Message>)
    requires Sane(w) && AllSound(w, ms)
    ensures Remainder(Concat(WireAll(w, ms))) == []
  {
    hide Wire, SoundMessage, Remainder, OneLine;
    var wires := WireAll(w, ms);
    forall i | 0 <= i < |ms| ensures OneLine(wires[i]) {
      MessageIsOneLine(w, ms[i]);
    }
    LinesOfConcat(wires);
  }

  lemma CutGreetingRest(cfg: Config, greeting: bytes, ms: seq<Message>)
    requires Sane(cfg.w) && AllSound(cfg.w, ms) && greeting <= Banner(cfg) && greeting != [] && greeting != Banner(cfg)
    ensures Remainder(greeting + Concat(WireAll(cfg.w, ms))) == if ms == [] then greeting else []
  {
    hide Encode, Banner, Wire, SoundMessage, CompleteLines, OneLine, Remainder;
    var text := PartialGreeting(cfg, greeting);
    var wires := WireAll(cfg.w, ms);
    if ms == [] {
      EncodeEol(text);
      assert greeting + Concat(wires) == greeting;
      NoEolRemains(greeting);
    } else {
      SwallowedReading(cfg.w, text, ms[0]);
      var rest := ms[1..];
      MessagesFinished(cfg.w, rest);
      assert wires[1..] == WireAll(cfg.w, rest);
      assert greeting + Concat(wires) == (greeting + wires[0]) + Concat(wires[1..]);
      LinesOfCons(greeting + wires[0], Concat(wires[1..]));
    }
  }

  // ----- What an unfinished line can pass as

  /** A piece of a message decodes, if it does, to the start of its text. */
  lemma PieceOfText(w: World, m: Message, part: bytes)
    requires part <= Encode(TextOf(w, m)) && Decode(part).Some?
    ensures Decode(part).value <= TextOf(w, m)
  {
    hide Encode, Decode, TextOf;
    EncodeDecode(part);
    EncodePrefix(Decode(part).value, TextOf(w, m));
  }

  lemma PieceIsStamped(w: World, m: Message, part: bytes)
    requires Sane(w) && SoundMessage(w, m) && part <= Encode(TextOf(w, m))
    ensures TornFrame(w.codec, part).Some? ==> m.FrameOut? && TornFrame(w.codec, part).value.ts.Some?
  {
    hide Encode, Decode, Parse, ToTsvLine, OneLineFrame;
    if TornFrame(w.codec, part).Some? {
      var text := Decode(part).value;
      PieceOfText(w, m, part);
      EmptyIsIgnored(w.codec);
      assert text[0] == TextOf(w, m)[0];
      if m.Notice? {
        HashIsIgnored(w.codec, text);
      } else {
        PrintOpens(w.codec, m.frame, m.now);
        OpensStamped(w.codec, text);
      }
    }
  }

  lemma EmptyIsIgnored(codec: TimeCodec)
    ensures Parse(codec, "") == Ignored
  {
    assert TrimEol("") == "" && Trim("") == "";
  }

  /** An unfinished greeting with anything behind it is a comment, or does not decode. */
  lemma GreetingPiece(cfg: Config, greeting: bytes, part: bytes)
    requires greeting <= Banner(cfg) && greeting != [] && greeting != Banner(cfg)
    ensures TornFrame(cfg.w.codec, greeting + part) == None
  {
    hide Encode, Decode, Parse, Banner;
    var g := PartialGreeting(cfg, greeting);
    if Decode(greeting + part).Some? {
      var text := Decode(greeting + part).value;
      EncodeDecode(greeting + part);
      EncodePrefix(g, text);
      HashIsIgnored(cfg.w.codec, text);
    }
  }

  /** A torn connection: the table of the messages made out, and on top of it what the torn piece passes as. */
  lemma TornConnection(
    cfg: Config, greeting: bytes, ms: seq<Message>, m: Message, part: bytes, strict: bool, clock: nat -> Stamp,
    options: Options)
    requires Sane(cfg.w) && AllSound(cfg.w, ms) && SoundMessage(cfg.w, m) && greeting <= Banner(cfg)
    requires EOL !in part && part <= Encode(TextOf(cfg.w, m))
    ensures
      var received := greeting + Concat(WireAll(cfg.w, ms)) + part;
      var heard := ms[Swallowed(cfg, greeting, ms)..];
      var torn := TornFrame(cfg.w.codec, Remainder(received));
      var v := ClosedView(cfg.w.codec, strict, received, clock, options);
      && (torn.Some? ==> m.FrameOut? && torn == TornFrame(cfg.w.codec, part) && torn.value.ts.Some?)
      && v.framesSeen == CountFrames(heard) + (if torn.Some? then 1 else 0)
      && v.entities == Overlaid(TableOf(cfg.w, heard), torn)
  {
    hide Encode, Banner, WireAll, SoundMessage, ReadingsOf, Readings, MessageReadings, FramesHeard, Deliver, IngestAll, TableOf,
      HeardFrames, CountFrames, TornFrame, Remainder, CompleteLines, TextOf, LastItem, Overlaid, Table, FileAll, Quiet, FrameIn;
    var stream := greeting + Concat(WireAll(cfg.w, ms));
    var received := stream + part;
    var heard := ms[Swallowed(cfg, greeting, ms)..];
    var rest := Remainder(received);
    RestOf(cfg, greeting, ms, part);
    PieceIsStamped(cfg.w, m, part);
    if rest != part {
      GreetingPiece(cfg, greeting, part);
    }
    UnfinishedLine(stream, part);
    SameReadings(cfg.w.codec, stream, received);
    var pre := ConnectionReadings(cfg, greeting, ms);
    QuietReadings(cfg.w, pre, heard);
    TableOfReadings(cfg.w, heard);
    var quiet, frames := pre + MessageReadings(cfg.w, heard), HeardFrames(cfg.w, heard);
    ReadingsAtEof(cfg.w.codec, received);
    if rest == [] {
      NothingTorn(cfg.w.codec);
      assert quiet + [] == quiet;
      QuietView(cfg.w.codec, strict, quiet, frames, clock, options);
      NothingOnTop(TableOf(cfg.w, heard));
    } else {
      LastItemReading(cfg.w.codec, rest);
      var last := Readings(cfg.w.codec, LastItem(rest));
      assert last == [last[0]];
      OneMoreReading(cfg.w.codec, strict, quiet, last[0], frames, clock, options);
    }
  }

  lemma NothingOnTop(table: map<string, Entity>)
    ensures Overlaid(table, None) == table
  {
  }

  lemma SameReadings(codec: TimeCodec, a: bytes, b: bytes)
    requires CompleteLines(a) == CompleteLines(b)
    ensures ReadingsOf(codec, a) == ReadingsOf(codec, b)
  {
    hide ReadingsOf, Readings, LineItems;
    ReadingsOfLines(codec, a);
    ReadingsOfLines(codec, b);
  }

  /** How far the broadcasts are heard that a dropped client got whole. */
  function LastWhole(s: State, gone: Closed): nat
    requires gone.client.joined <= gone.at < |s.log|
  {
    if gone.client.received == gone.client.greeting + Concat(s.log[gone.client.joined..gone.at + 1])
    then gone.at + 1 else gone.at
  }

  function HeardUntil(cfg: Config, c: Client, last: nat): nat {
    if FirstHeard(cfg, c) <= last then FirstHeard(cfg, c) else last
  }

  lemma PieceOfWire(text: string, part: bytes)
    requires '\n' !in text && part <= Encode(text + "\n") && part != Encode(text + "\n")
    ensures part <= Encode(text) && EOL !in part
  {
    hide Encode;
    SentLine(text);
    EncodeEol(text);
    assert part <= Body(Encode(text + "\n"));
  }

  /** What a dropped client received behind the last whole broadcast. */
  function TornPart(s: State, gone: Closed): bytes
    requires gone.client.joined <= gone.at < |s.log|
  {
    var n := |gone.client.greeting + Concat(s.log[gone.client.joined..LastWhole(s, gone)])|;
    if n <= |gone.client.received| then gone.client.received[n..] else []
  }

  /** What a dropped client received, in terms of the messages. */
  lemma ClosedPieces(cfg: Config, steps: seq<Step>, d: nat)
    requires Sane(cfg.w) && d < |Exec(cfg, steps).closed|
    ensures
      var s := Exec(cfg, steps);
      var gone := s.closed[d];
      var c := gone.client;
      && c.joined <= gone.at < |s.log| <= |s.sent| && c.greeting <= Banner(cfg)
      && var ms, m, part := Between(s.sent, c.joined, LastWhole(s, gone)), s.sent[gone.at].msg, TornPart(s, gone);
      && AllSound(cfg.w, ms) && SoundMessage(cfg.w, m)
      && EOL !in part && part <= Encode(TextOf(cfg.w, m))
      && (LastWhole(s, gone) == gone.at + 1 ==> part == [])
      && c.received == c.greeting + Concat(WireAll(cfg.w, ms)) + part
  {
    hide Exec, ProducersInv, Banner, SoundMessage, LineMessage, TextOf, Encode, OneLine, Concat, WireAll;
    RunKeepsInv(cfg, steps);
    var s := Exec(cfg, steps);
    var gone := s.closed[d];
    assert |s.log + s.queue| == |s.sent|;
    LogIsWires(cfg.w, s, gone.client.joined, LastWhole(s, gone));
    var m := s.sent[gone.at].msg;
    assert s.log[gone.at] == (s.log + s.queue)[gone.at] == Wire(cfg.w, m);
    PieceOfFatal(s.log, gone);
    TextIsOneLine(cfg.w, m);
    if LastWhole(s, gone) == gone.at {
      PieceOfWire(TextOf(cfg.w, m), TornPart(s, gone));
    }
  }

  lemma PieceOfFatal(log: seq<bytes>, gone: Closed)
    requires CutOff(log, gone)
    ensures
      var s := INITIAL.(log := log);
      var c, last, part := gone.client, LastWhole(s, gone), TornPart(s, gone);
      && c.received == c.greeting + Concat(log[c.joined..last]) + part
      && (if last == gone.at + 1 then part == [] else part <= log[gone.at] && part != log[gone.at])
  {
    hide Concat;
    var s := INITIAL.(log := log);
    var c := gone.client;
    var before, m := log[c.joined..gone.at], log[gone.at];
    assert log[c.joined..gone.at + 1] == before + [m];
    ConcatAppend(before, m);
    var base := c.greeting + Concat(before);
    assert base + m == c.greeting + Concat(before + [m]);
    if LastWhole(s, gone) == gone.at {
      var part := c.received[|base|..];
      assert c.received == base + part && part <= m && (part == m ==> c.received == base + m);
    }
  }

  /**
   The mirror of a dropped client, at the end of its stream, in every run: the table of the broadcasts it
   got whole, and on top of it the row of what the unfinished last line passes as, if it passes. When it
   does, and as what, is TornExact.
   */
  lemma ClosedMirrorHolds(cfg: Config, steps: seq<Step>, d: nat, strict: bool, clock: nat -> Stamp, options: Options)
    requires Sane(cfg.w) && d < |Exec(cfg, steps).closed|
    ensures
      var s := Exec(cfg, steps);
      var gone := s.closed[d];
      var c := gone.client;
      && c.joined <= gone.at < |s.log| <= |s.sent|
      && var last := LastWhole(s, gone);
      var heard := Between(s.sent, HeardUntil(cfg, c, last), last);
      var torn := TornFrame(cfg.w.codec, Remainder(c.received));
      var v := ClosedView(cfg.w.codec, strict, c.received, clock, options);
      && (torn.Some? ==> torn.value.ts.Some?)
      && v.framesSeen == CountFrames(heard) + (if torn.Some? then 1 else 0)
      && v.entities == Overlaid(TableOf(cfg.w, heard), torn)
  {
    hide Exec, Banner, SoundMessage, TextOf, Encode, Decode, ClosedView, TornFrame, Overlaid, TableOf, CountFrames, WireAll, Remainder;
    ClosedPieces(cfg, steps, d);
    var s := Exec(cfg, steps);
    var gone := s.closed[d];
    var c := gone.client;
    var last := LastWhole(s, gone);
    var ms, m := Between(s.sent, c.joined, last), s.sent[gone.at].msg;
    TornConnection(cfg, c.greeting, ms, m, TornPart(s, gone), strict, clock, options);
    assert ms[Swallowed(cfg, c.greeting, ms)..] == Between(s.sent, HeardUntil(cfg, c, last), last);
  }

  // ----- When an unfinished line passes, and as what

  /** The greeting is out of the way: it arrived whole or not at all, or a whole broadcast ended its line. */
  predicate GreetingDone(cfg: Config, gone: Closed) {
    gone.client.greeting == [] || gone.client.greeting == Banner(cfg) || gone.client.joined < gone.at
  }

  /** The columns of a piece that decodes. */
  function ColumnsIn(part: bytes): nat {
    match Decode(part)
    case None => 0
    case Some(text) => |Split(text, '\t')|
  }

  lemma NoPieceOfNotice(w: World, m: Message, part: bytes)
    requires m.Notice? && part <= Encode(TextOf(w, m))
    ensures TornFrame(w.codec, part) == None
  {
    hide Encode, Decode, Parse;
    if Decode(part).Some? {
      var text := Decode(part).value;
      PieceOfText(w, m, part);
      EmptyIsIgnored(w.codec);
      if text != "" {
        HashIsIgnored(w.codec, text);
      }
    }
  }

  lemma PieceOfFrame(w: World, m: Message, part: bytes)
    requires Sane(w) && SoundMessage(w, m) && m.FrameOut? && part <= Encode(TextOf(w, m))
    ensures TornFrame(w.codec, part).Some? <==> ColumnsIn(part) >= 7
    ensures TabFreeHead(m.frame) ==>
      var head := HeadText(w.codec, m.frame, m.now);
      && HeardAs(w, m).Accepted?
      && (ColumnsIn(part) >= 7 <==> Decode(part).Some? && Encode(head) <= part)
      && (ColumnsIn(part) >= 7 ==>
            && head <= Decode(part).value
            && TornFrame(w.codec, part) == Some(HeardAs(w, m).frame.(kv := KvOf(UpToTab(Decode(part).value[|head|..])))))
  {
    hide Encode, Decode, Parse, ToTsvLine, OneLineFrame, Split, HeadText, KvOf, UpToTab, TabFreeHead;
    if Decode(part).Some? {
      var text, head := Decode(part).value, HeadText(w.codec, m.frame, m.now);
      PieceOfText(w, m, part);
      EncodeDecode(part);
      TornPieceExact(w.codec, m.frame, m.now, text);
      SamePrefix(head, text);
    } else {
      TornPieceExact(w.codec, m.frame, m.now, "");
    }
  }

  lemma SamePrefix(a: string, b: string)
    ensures a <= b <==> Encode(a) <= Encode(b)
  {
    if a <= b {
      assert b == a + b[|a|..];
      EncodeConcat(a, b[|a|..]);
    }
    if Encode(a) <= Encode(b) {
      EncodePrefix(a, b);
    }
  }

  /**
   Exactly when the mirror of a dropped client shows a row that its unfinished last line left: when the
   greeting is out of the way, the fatal broadcast was a frame, and the piece of it that arrived ends
   between two characters and has six tabs, which for a tab-free head means that the tab before the bag
   arrived. The frame is then the one broadcast, but for the bag, which is read from what arrived of it.
   */
  lemma TornExact(cfg: Config, steps: seq<Step>, d: nat)
    requires Sane(cfg.w) && d < |Exec(cfg, steps).closed|
    ensures
      var s := Exec(cfg, steps);
      var gone := s.closed[d];
      && gone.client.joined <= gone.at < |s.log| <= |s.sent|
      && var m, part := s.sent[gone.at].msg, TornPart(s, gone);
      var torn := TornFrame(cfg.w.codec, Remainder(gone.client.received));
      && (torn.Some? <==> GreetingDone(cfg, gone) && m.FrameOut? && ColumnsIn(part) >= 7)
      && (torn.Some? && TabFreeHead(m.frame) ==>
            var head := HeadText(cfg.w.codec, m.frame, m.now);
            && HeardAs(cfg.w, m).Accepted? && Decode(part).Some? && head <= Decode(part).value
            && torn.value == HeardAs(cfg.w, m).frame.(kv := KvOf(UpToTab(Decode(part).value[|head|..]))))
      && (m.FrameOut? && TabFreeHead(m.frame) ==>
            (ColumnsIn(part) >= 7 <==> Decode(part).Some? && Encode(HeadText(cfg.w.codec, m.frame, m.now)) <= part))
  {
    hide Exec, Banner, SoundMessage, TextOf, Encode, Decode, TornFrame, WireAll, Remainder, Concat, HeadText, ColumnsIn, HeardAs,
      TabFreeHead, KvOf, UpToTab, TornPart, LastWhole;
    ClosedPieces(cfg, steps, d);
    var s := Exec(cfg, steps);
    var gone := s.closed[d];
    var c, last, part := gone.client, LastWhole(s, gone), TornPart(s, gone);
    WholeHasNoPiece(s, gone, part);
    var ms, m := Between(s.sent, c.joined, last), s.sent[gone.at].msg;
    RestOf(cfg, c.greeting, ms, part);
    if m.FrameOut? {
      PieceOfFrame(cfg.w, m, part);
    } else {
      NoPieceOfNotice(cfg.w, m, part);
    }
    if c.greeting != [] && c.greeting != Banner(cfg) {
      GreetingPiece(cfg, c.greeting, part);
    }
  }

  lemma WholeHasNoPiece(s: State, gone: Closed, part: bytes)
    requires gone.client.joined <= gone.at < |s.log|
    requires LastWhole(s, gone) == gone.at + 1 ==> part == []
    ensures gone.at <= LastWhole(s, gone) <= gone.at + 1
    ensures LastWhole(s, gone) == gone.at + 1 ==> ColumnsIn(part) < 7
  {
    hide Concat;
  }

  // ----- A row that was never broadcast

  /** The whole banner, then one frame of which only `n` bytes arrive. */
  function TornRun(f: Frame, now: Stamp, n: nat): seq<Step> {
    [Greet(Written), Push, Watch(f, now), Broadcast([Failed(n)])]
  }

  lemma OneCasualty(c: Client, m: bytes, n: nat)
    requires n < |m|
    ensures Survivors([c], m, [Failed(n)]) == []
    ensures Casualties([c], m, [Failed(n)]) == [c.(received := c.received + m[..n])]
  {
    assert [c][..0] == [] && [Failed(n)][..0] == [];
  }

  lemma TornState(cfg: Config, f: Frame, now: Stamp, n: nat)
    requires Sane(cfg.w) && OneLineFrame(f) && Formattable(cfg.w.codec, Stamped(f, now))
    requires n < |Wire(cfg.w, FrameOut(f, now))|
    ensures
      var s, m, g := Exec(cfg, TornRun(f, now, n)), FrameOut(f, now), Banner(cfg);
      && s.closed == [Closed(Client(0, g, g + Wire(cfg.w, m)[..n]), 0)]
      && s.log == [Wire(cfg.w, m)] && s.sent == [Sent(None, m)]
  {
    hide Exec, Banner, OneLineFrame, Formattable, Wire, Survivors, Casualties;
    StepsOf(cfg, Greet(Written), Push, Watch(f, now), Broadcast([Failed(n)]));
    var g, m := Banner(cfg), FrameOut(f, now);
    var s1 := INITIAL.(greeted := Some(g));
    assert Next(cfg, INITIAL, Greet(Written)) == s1;
    var s2 := s1.(greeted := None, clients := [Client(0, g, g)]);
    assert Next(cfg, s1, Push) == s2;
    var s3 := s2.(sent := [Sent(None, m)], queue := [Wire(cfg.w, m)]);
    assert Next(cfg, s2, Watch(f, now)) == s3;
    OneCasualty(Client(0, g, g), Wire(cfg.w, m), n);
  }

  /** In that run the piece that arrived is all there is to the unfinished line. */
  lemma TornRunPart(cfg: Config, f: Frame, now: Stamp, n: nat)
    requires Sane(cfg.w) && OneLineFrame(f) && Formattable(cfg.w.codec, Stamped(f, now))
    requires n < |Wire(cfg.w, FrameOut(f, now))|
    ensures
      var s := Exec(cfg, TornRun(f, now, n));
      && |s.closed| == 1 && |s.log| == 1 && |s.sent| == 1 && s.sent[0].msg == FrameOut(f, now)
      && s.closed[0].client.joined == 0 && s.closed[0].at == 0 && s.closed[0].client.greeting == Banner(cfg)
      && LastWhole(s, s.closed[0]) == 0 && TornPart(s, s.closed[0]) == Wire(cfg.w, FrameOut(f, now))[..n]
  {
    hide Exec, Banner, OneLineFrame, Formattable, Wire, Sane;
    TornState(cfg, f, now, n);
    var s, g, m := Exec(cfg, TornRun(f, now, n)), Banner(cfg), Wire(cfg.w, FrameOut(f, now));
    var none: seq<bytes>, one: seq<bytes> := [], [m];
    assert s.log[0..0] == none && s.log[0..1] == one && one[1..] == none;
    assert Concat(one) == m + Concat(none) == m;
    assert g + [] == g;
    assert |g + m[..n]| < |g + m|;
  }

  lemma {:induction false} OneEntryBag(key: string, n: int)
    requires PlainKey(key) && '\t' !in key && IsI64(n) && n > 0
    ensures KvText(map[key := Show(n)]) == key + "=" + Show(n)
    ensures UpToTab(key + "=" + Show(n)) == key + "=" + Show(n)
    ensures TtlOf(KvOf(key + "=" + Show(n)), key) == Some(n)
  {
    hide Show, EntryOf, SortedKeys, ParseI64, KvOf, UpToTab;
    var kv := map[key := Show(n)];
    var keys := SortedKeys(kv.Keys);
    ShowIsPlain(n);
    assert kv.Keys == {key};
    assert key in keys && forall k :: k in keys ==> k == key;
    assert keys == [key];
    assert Parts(keys, kv) == [key + "=" + Show(n)];
    PairText(key, Show(n));
    PairEntry(key, Show(n));
    var text := key + "=" + Show(n);
    UpToTabWhole(text);
    SplitWhole(text, ';');
    KvOfBuild(text);
    assert Entries([text]) == [Some((key, Show(n)))];
    BuildLast(Entries([text]), 0, key);
    ParseShow(n);
  }

  lemma ShowHundredfold(n: nat)
    requires n > 0
    ensures Show(100 * n) == Show(n) + "00"
  {
    assert Digits(100 * n) == Digits(10 * n) + "0" && Digits(10 * n) == Digits(n) + "0";
  }

  lemma TtlKeyPlain()
    ensures PlainKey("ttl_stale_s") && '\t' !in "ttl_stale_s"
  {
  }

  /** The start of a frame's text, and how many bytes of the wire it takes. */
  lemma PieceOnWire(w: World, m: Message, text: string, rest: string)
    requires TextOf(w, m) == text + rest && rest != ""
    ensures |Encode(text)| < |Wire(w, m)| && Wire(w, m)[..|Encode(text)|] == Encode(text)
  {
    hide TextOf;
    EncodeConcat(text, rest + "\n");
    assert TextOf(w, m) + "\n" == text + (rest + "\n");
    assert Encode(rest + "\n") != [];
  }

  /** The text of a frame with one TTL entry, cut two digits before its end. */
  function CutTtlText(codec: TimeCodec, f: Frame, now: Stamp, n: nat): string {
    HeadText(codec, f, now) + ("ttl_stale_s" + "=" + Show(n))
  }

  /** That piece passes as the frame with a hundredth of its TTL. */
  lemma CutTtlPiece(w: World, f: Frame, now: Stamp, n: nat)
    requires Sane(w) && OneLineFrame(f) && Formattable(w.codec, Stamped(f, now)) && CleanHead(f)
    requires n > 0 && IsI64(100 * n) && f.kv == map["ttl_stale_s" := Show(100 * n)]
    ensures
      var m, text := FrameOut(f, now), CutTtlText(w.codec, f, now, n);
      var p := Parse(w.codec, text);
      && TextOf(w, m) == text + "00"
      && HeardAs(w, m).Accepted? && TtlOf(HeardAs(w, m).frame.kv, "ttl_stale_s") == Some(100 * n)
      && p.Accepted? && p.frame.scope == f.scope && p.frame.id == f.id && TtlOf(p.frame.kv, "ttl_stale_s") == Some(n)
  {
    hide Parse, ToTsvLine, KvOf, OneLineFrame, HeadText, CleanText, TtlOf, KvText, Show, PlainKey, UpToTab;
    var m, key := FrameOut(f, now), "ttl_stale_s";
    var head, cut, whole := HeadText(w.codec, f, now), key + "=" + Show(n), key + "=" + Show(100 * n);
    TextParts(w.codec, f, now);
    TtlKeyPlain();
    ShowHundredfold(n);
    OneEntryBag(key, n);
    OneEntryBag(key, 100 * n);
    assert whole == cut + "00";
    assert TextOf(w, m) == head + whole == (head + cut) + "00";
    CleanHeadIsTabFree(f);
    LongPiece(w.codec, f, now, cut);
    LongPiece(w.codec, f, now, whole);
    HeadRoundTrip(w.codec, f, now);
  }

  lemma CleanHeadIsTabFree(f: Frame)
    requires CleanHead(f)
    ensures TabFreeHead(f)
  {
  }

  /**
   So a mirror can end with a row that was never broadcast: in this run the only frame had a TTL of 100n
   seconds, and the closed mirror shows it with a TTL of n.
   */
  lemma TornTtl(cfg: Config, f: Frame, now: Stamp, n: nat, strict: bool, clock: nat -> Stamp, options: Options)
    requires Sane(cfg.w) && OneLineFrame(f) && Formattable(cfg.w.codec, Stamped(f, now)) && CleanHead(f)
    requires n > 0 && IsI64(100 * n) && f.kv == map["ttl_stale_s" := Show(100 * n)]
    ensures
      var arrived := |Encode(CutTtlText(cfg.w.codec, f, now, n))|;
      var s := Exec(cfg, TornRun(f, now, arrived));
      && |s.closed| == 1 && |s.sent| == 1 && HeardAs(cfg.w, s.sent[0].msg).Accepted?
      && TtlOf(HeardAs(cfg.w, s.sent[0].msg).frame.kv, "ttl_stale_s") == Some(100 * n)
      && var v, key := ClosedView(cfg.w.codec, strict, s.closed[0].client.received, clock, options), f.scope + ":" + f.id;
      key in v.entities && TtlOf(v.entities[key].kv, "ttl_stale_s") == Some(n)
  {
    hide Exec, Banner, OneLineFrame, Formattable, Sane, CleanHead, Parse, HeardAs, TtlOf, ClosedView, CutTtlText, Encode, Decode, Wire,
      TextOf, Show, TornPart, LastWhole, Concat, Remainder, CountFrames;
    var m, text := FrameOut(f, now), CutTtlText(cfg.w.codec, f, now, n);
    var arrived := |Encode(text)|;
    CutTtlPiece(cfg.w, f, now, n);
    PieceOnWire(cfg.w, m, text, "00");
    TornRunPart(cfg, f, now, arrived);
    DecodeEncode(text);
    ClosedMirrorHolds(cfg, TornRun(f, now, arrived), 0, strict, clock, options);
    RestOfTornRun(cfg, f, now, arrived);
  }

  lemma RestOfTornRun(cfg: Config, f: Frame, now: Stamp, n: nat)
    requires Sane(cfg.w) && OneLineFrame(f) && Formattable(cfg.w.codec, Stamped(f, now))
    requires n < |Wire(cfg.w, FrameOut(f, now))|
    ensures
      var s := Exec(cfg, TornRun(f, now, n));
      |s.closed| == 1 && Remainder(s.closed[0].client.received) == Wire(cfg.w, FrameOut(f, now))[..n]
  {
    hide Exec, Banner, OneLineFrame, Formattable, Sane, Wire, TornPart, LastWhole, Concat, Remainder, Encode, TextOf, SoundMessage;
    TornRunPart(cfg, f, now, n);
    ClosedPieces(cfg, TornRun(f, now, n), 0);
    var s := Exec(cfg, TornRun(f, now, n));
    RestOf(cfg, Banner(cfg), Between(s.sent, 0, 0), TornPart(s, s.closed[0]));
  }
}

/**
 From producers to mirrors: what a mirror shows after reading everything its connection received.
 */
module EndToEnd {
  import opened Basics
  import opened HawkFrame
  import opened Utf8
  import opened Framing
  import opened Producers
  import opened Accounting
  import opened Clients
  import opened Spine
  import opened Entities
  import opened Mirror
  import opened Reader

  // ----- Delivery

  /**
   Delivery in every run: a live client has received what arrived of the banner and then, in order
   and without gap, every message broadcast since it joined; every message is one line.
   */
  lemma Delivery(cfg: Config, steps: seq<Step>, i: nat)
    requires Sane(cfg.w) && i < |Exec(cfg, steps).clients|
    ensures
      var s := Exec(cfg, steps);
      var c := s.clients[i];
      && c.joined <= |s.log| && c.greeting <= Banner(cfg)
      && c.received == c.greeting + Concat(s.log[c.joined..])
      && (forall j :: 0 <= j < |s.log| ==> OneLine(s.log[j]))
      && CompleteLines(c.received[|c.greeting|..]) == Bodies(s.log[c.joined..])
  {
    hide Exec, ProducersInv, Banner, Wire, SoundMessage;
    RunKeepsInv(cfg, steps);
    var s := Exec(cfg, steps);
    var c := s.clients[i];
    forall j | 0 <= j < |s.log| ensures OneLine(s.log[j]) {
      assert s.log[j] == (s.log + s.queue)[j] == Wires(cfg.w, s.sent)[j];
      MessageIsOneLine(cfg.w, s.sent[j].msg);
    }
    LinesOfConcat(s.log[c.joined..]);
    assert c.received[|c.greeting|..] == Concat(s.log[c.joined..]);
  }

  lemma ConcatPrefix(log: seq<bytes>, a: nat, b: nat)
    requires a <= b <= |log|
    ensures Concat(log[a..b]) <= Concat(log[a..])
  {
    assert log[a..] == log[a..b] + log[b..];
    ConcatSplit(log[a..b], log[b..]);
  }

  /** A dropped client holds a prefix of what a survivor with the same join point and greeting holds. */
  lemma DroppedHoldsPrefix(cfg: Config, steps: seq<Step>, i: nat, d: nat)
    requires Sane(cfg.w)
    requires i < |Exec(cfg, steps).clients| && d < |Exec(cfg, steps).closed|
    requires
      var s := Exec(cfg, steps);
      s.closed[d].client.joined == s.clients[i].joined && s.closed[d].client.greeting == s.clients[i].greeting
    ensures Exec(cfg, steps).closed[d].client.received <= Exec(cfg, steps).clients[i].received
  {
    hide Exec, ProducersInv, ChannelInv, Banner;
    RunKeepsInv(cfg, steps);
    var s := Exec(cfg, steps);
    var c, gone := s.clients[i], s.closed[d];
    ConcatPrefix(s.log, c.joined, gone.at + 1);
    var whole, part := Concat(s.log[c.joined..]), Concat(s.log[c.joined..gone.at + 1]);
    assert c.greeting + part <= c.greeting + whole;
  }

  /**
   A dropped client holds every line broadcast from its join point up to the fatal one, whole, and
   nothing more than a torn piece of that one, unless all of it had arrived.
   */
  lemma DroppedLines(cfg: Config, steps: seq<Step>, d: nat)
    requires Sane(cfg.w) && d < |Exec(cfg, steps).closed|
    ensures
      var s := Exec(cfg, steps);
      var gone := s.closed[d];
      var c := gone.client;
      && c.joined <= gone.at < |s.log| && c.greeting <= c.received
      && var last := if c.received == c.greeting + Concat(s.log[c.joined..gone.at + 1]) then gone.at + 1 else gone.at;
      CompleteLines(c.received[|c.greeting|..]) == Bodies(s.log[c.joined..last])
  {
    hide Exec, ProducersInv, Banner, Wire, SoundMessage, CompleteLines, OneLine, Bodies;
    RunKeepsInv(cfg, steps);
    var s := Exec(cfg, steps);
    var gone := s.closed[d];
    var c := gone.client;
    forall j | 0 <= j < |s.log| ensures OneLine(s.log[j]) {
      assert s.log[j] == (s.log + s.queue)[j] == Wires(cfg.w, s.sent)[j];
      MessageIsOneLine(cfg.w, s.sent[j].msg);
    }
    var before, m := s.log[c.joined..gone.at], s.log[gone.at];
    assert s.log[c.joined..gone.at + 1] == before + [m];
    ConcatAppend(before, m);
    var base := c.greeting + Concat(before);
    var part := c.received[|base|..];
    assert c.received == base + part && base + m == c.greeting + Concat(before + [m]);
    assert part <= m;
    LinesOfTorn(before, m, part);
    assert c.received[|c.greeting|..] == Concat(before) + part;
    assert part == m <==> c.received == base + m;
  }

  /**
   What was sent by one reading loop, at any moment of any run, is exactly what that loop sends
   when run alone on the lines it has read; and the channel holds all of it in sending order.
   */
  lemma ChannelIsFaithful(cfg: Config, steps: seq<Step>, p: nat)
    requires Sane(cfg.w) && p < |Exec(cfg, steps).producers|
    ensures
      var s := Exec(cfg, steps);
      && s.log + s.queue == Wires(cfg.w, s.sent)
      && |s.producers[p].clocks| == |s.producers[p].items|
      && Project(s.sent, p) == Talk(RepliesOf(cfg, s.producers[p]))
  {
    hide Exec, ClientsInv, ReplyTo, SoundMessage, LineMessage, Wires;
    RunKeepsInv(cfg, steps);
    var s := Exec(cfg, steps);
    var prod := s.producers[p];
    assert ProducerOk(cfg, prod, Project(s.sent, p));
    var replies := RepliesOf(cfg, prod);
    TalkIsSaid(replies, if prod.running then |replies| else |replies| - 1);
    assert replies[..|replies|] == replies;
  }

  // ----- Reading a connection

  /** What a mirror's parser makes of a message. */
  function HeardAs(w: World, m: Message): Parsed {
    Parse(w.codec, TextOf(w, m))
  }

  function MessageReadings(w: World, ms: seq<Message>): seq<Reading> {
    seq(|ms|, i requires 0 <= i < |ms| => Heard(HeardAs(w, ms[i])))
  }

  ghost predicate AllSound(w: World, ms: seq<Message>) {
    forall i :: 0 <= i < |ms| ==> SoundMessage(w, ms[i])
  }

  lemma ReadOneMessage(w: World, m: Message)
    requires Sane(w) && SoundMessage(w, m)
    ensures ReadingOf(w.codec, LineItem(Body(Wire(w, m)))) == Heard(HeardAs(w, m))
  {
    hide Parse, Wire, SoundMessage;
    MessageIsOneLine(w, m);
    MessageHeard(w, m);
  }

  /** Reading back the concatenation of messages gives one reading for each. */
  lemma ReadMessages(w: World, ms: seq<Message>)
    requires Sane(w) && AllSound(w, ms)
    ensures CompleteLines(Concat(WireAll(w, ms))) == Bodies(WireAll(w, ms))
    ensures Readings(w.codec, LineItems(Bodies(WireAll(w, ms)))) == MessageReadings(w, ms)
  {
    hide Wire, HeardAs, LineItem, ReadingOf, SoundMessage, OneLine;
    var wires := WireAll(w, ms);
    forall i | 0 <= i < |ms| ensures OneLine(wires[i]) {
      MessageIsOneLine(w, ms[i]);
    }
    LinesOfConcat(wires);
    forall i | 0 <= i < |ms| ensures ReadingOf(w.codec, LineItem(Body(wires[i]))) == Heard(HeardAs(w, ms[i])) {
      ReadOneMessage(w, ms[i]);
    }
  }

  // ----- The greeting

  lemma BannerAscii()
    ensures Ascii(BANNER_TEXT + "\n") && '\n' !in BANNER_TEXT
  {
  }

  /** An unfinished greeting is the start of the banner text, without its newline. */
  lemma PartialGreeting(cfg: Config, greeting: bytes) returns (text: string)
    requires greeting <= Banner(cfg) && greeting != Banner(cfg) && greeting != []
    ensures text != "" && text[0] == '#' && '\n' !in text && greeting == Encode(text)
  {
    BannerAscii();
    var whole := BANNER_TEXT + "\n";
    EncodeAscii(whole, 0);
    EncodeAscii(whole, |greeting|);
    text := whole[..|greeting|];
    assert text <= BANNER_TEXT;
  }

  /** The first broadcast a mirror can make out: an unfinished greeting swallows one line. */
  function FirstHeard(cfg: Config, c: Client): nat {
    if c.greeting == [] || c.greeting == Banner(cfg) then c.joined else c.joined + 1
  }

  lemma BannerReading(cfg: Config)
    requires cfg.banner
    ensures OneLine(Banner(cfg))
    ensures ReadingOf(cfg.w.codec, LineItem(Body(Banner(cfg)))) == Heard(Ignored)
  {
    BannerAscii();
    SentLine(BANNER_TEXT);
    assert BANNER_TEXT[|BANNER_TEXT| - 1] == 'd';
    HashIsIgnored(cfg.w.codec, BANNER_TEXT);
  }

  lemma SwallowedReading(w: World, greeting: string, m: Message)
    requires Sane(w) && SoundMessage(w, m)
    requires greeting != "" && greeting[0] == '#' && '\n' !in greeting
    ensures OneLine(Encode(greeting) + Wire(w, m))
    ensures ReadingOf(w.codec, LineItem(Body(Encode(greeting) + Wire(w, m)))) == Heard(Ignored)
  {
    hide Parse, TextOf, SoundMessage, Encode;
    var text := TextOf(w, m);
    TextIsOneLine(w, m);
    EncodeConcat(greeting, text + "\n");
    assert greeting + (text + "\n") == (greeting + text) + "\n";
    SentLine(greeting + text);
    HashIsIgnored(w.codec, greeting + text);
    StripCrParses(w.codec, greeting + text);
  }

  function Swallowed(cfg: Config, greeting: bytes, ms: seq<Message>): nat {
    if greeting == [] || greeting == Banner(cfg) || ms == [] then 0 else 1
  }

  function ReadingsOf(codec: TimeCodec, received: bytes): seq<Reading> {
    Readings(codec, SocketItems(received, false))
  }

  lemma ReadingsOfLines(codec: TimeCodec, received: bytes)
    ensures ReadingsOf(codec, received) == Readings(codec, LineItems(CompleteLines(received)))
  {
    assert SocketItems(received, false) == LineItems(CompleteLines(received));
  }

  lemma ItemsCons(line: bytes, lines: seq<bytes>)
    ensures LineItems([line] + lines) == [LineItem(line)] + LineItems(lines)
  {
    hide LineItem;
  }

  lemma ReadingsFront(codec: TimeCodec, item: Item, items: seq<Item>)
    ensures Readings(codec, [item] + items) == [ReadingOf(codec, item)] + Readings(codec, items)
  {
    hide ReadingOf;
  }

  /** One more line in front of a stream is one more reading in front. */
  lemma ReadingsCons(codec: TimeCodec, line: bytes, rest: bytes)
    requires OneLine(line)
    ensures ReadingsOf(codec, line + rest) == [ReadingOf(codec, LineItem(Body(line)))] + ReadingsOf(codec, rest)
  {
    hide LineItem, ReadingOf, OneLine, ReadingsOf, CompleteLines, LineItems, Readings;
    LinesOfCons(line, rest);
    ReadingsOfLines(codec, line + rest);
    ReadingsOfLines(codec, rest);
    ItemsCons(Body(line), CompleteLines(rest));
    ReadingsFront(codec, LineItem(Body(line)), LineItems(CompleteLines(rest)));
  }

  lemma ReadingsOfMessages(w: World, ms: seq<Message>)
    requires Sane(w) && AllSound(w, ms)
    ensures ReadingsOf(w.codec, Concat(WireAll(w, ms))) == MessageReadings(w, ms)
  {
    hide AllSound, MessageReadings, WireAll, Readings, LineItems, Bodies;
    ReadMessages(w, ms);
    ReadingsOfLines(w.codec, Concat(WireAll(w, ms)));
  }

  lemma SwallowedReadings(cfg: Config, greeting: bytes, ms: seq<Message>)
    requires Sane(cfg.w) && AllSound(cfg.w, ms)
    requires greeting <= Banner(cfg) && greeting != [] && greeting != Banner(cfg)
    ensures ReadingsOf(cfg.w.codec, greeting + Concat(WireAll(cfg.w, ms))) ==
            if ms == [] then [] else [Heard(Ignored)] + MessageReadings(cfg.w, ms[1..])
  {
    hide Encode, Banner, Wire, Readings, MessageReadings, SoundMessage, LineItem, ReadingsOf;
    var text := PartialGreeting(cfg, greeting);
    if ms == [] {
      EncodeEol(text);
      assert Concat(WireAll(cfg.w, ms)) == [];
      assert greeting + [] == greeting;
      ReadingsOfLines(cfg.w.codec, greeting);
      NoReadings(cfg.w.codec);
    } else {
      var m, rest := ms[0], ms[1..];
      SwallowedReading(cfg.w, text, m);
      assert WireAll(cfg.w, ms)[1..] == WireAll(cfg.w, rest);
      assert greeting + (Wire(cfg.w, m) + Concat(WireAll(cfg.w, rest))) == (greeting + Wire(cfg.w, m)) + Concat(WireAll(cfg.w, rest));
      ReadingsCons(cfg.w.codec, greeting + Wire(cfg.w, m), Concat(WireAll(cfg.w, rest)));
      ReadingsOfMessages(cfg.w, rest);
    }
  }

  lemma NoReadings(codec: TimeCodec)
    ensures Readings(codec, LineItems([])) == []
  {
  }

  /** A connection reads as a silent greeting and then the messages, less one if the greeting was cut. */
  lemma ConnectionReadings(cfg: Config, greeting: bytes, ms: seq<Message>) returns (pre: seq<Reading>)
    requires Sane(cfg.w) && AllSound(cfg.w, ms) && greeting <= Banner(cfg)
    ensures forall i :: 0 <= i < |pre| ==> pre[i] == Heard(Ignored)
    ensures ReadingsOf(cfg.w.codec, greeting + Concat(WireAll(cfg.w, ms))) ==
            pre + MessageReadings(cfg.w, ms[Swallowed(cfg, greeting, ms)..])
  {
    hide Encode, Banner, WireAll, MessageReadings, SoundMessage, ReadingsOf;
    var stream := Concat(WireAll(cfg.w, ms));
    assert ms[0..] == ms;
    if greeting == [] {
      assert greeting + stream == stream;
      ReadingsOfMessages(cfg.w, ms);
      pre := [];
      assert pre + MessageReadings(cfg.w, ms) == MessageReadings(cfg.w, ms);
    } else if greeting == Banner(cfg) {
      BannerOnlyIfEnabled(cfg);
      BannerReading(cfg);
      ReadingsCons(cfg.w.codec, greeting, stream);
      ReadingsOfMessages(cfg.w, ms);
      pre := [Heard(Ignored)];
    } else {
      SwallowedReadings(cfg, greeting, ms);
      if ms == [] {
        pre := [];
        NoMessages(cfg.w, ms);
      } else {
        pre := [Heard(Ignored)];
      }
    }
  }

  lemma NoMessages(w: World, ms: seq<Message>)
    requires ms == []
    ensures MessageReadings(w, ms) == []
  {
  }

  lemma BannerOnlyIfEnabled(cfg: Config)
    requires Banner(cfg) != []
    ensures cfg.banner
  {
  }

  // ----- The table

  /** Everything a mirror that has read all of `received` shows. */
  function MirrorOf(codec: TimeCodec, strict: bool, received: bytes, clock: nat -> Stamp, options: Options): View {
    IngestAll(codec, Fresh(options),
              Deliver(strict, ReadingsOf(codec, received)), clock)
  }

  /** The row a message leaves: stamped by the spine, whatever clock the mirror has. */
  function RowOf(w: World, m: Message): Entity
    requires HeardAs(w, m).Accepted? && m.FrameOut?
  {
    EntityOf(HeardAs(w, m).frame, Stamped(m.frame, m.now))
  }

  ghost predicate Carries(w: World, m: Message, key: string) {
    && m.FrameOut? && HeardAs(w, m).Accepted?
    && HeardAs(w, m).frame.scope + ":" + HeardAs(w, m).frame.id == key
  }

  /** The table the messages leave, last one first to decide. */
  ghost function TableOf(w: World, ms: seq<Message>): map<string, Entity> {
    if ms == [] then map[]
    else
      var n := |ms| - 1;
      if ms[n].FrameOut? && HeardAs(w, ms[n]).Accepted?
      then TableOf(w, ms[..n])[KeyOf(HeardAs(w, ms[n]).frame) := RowOf(w, ms[n])]
      else TableOf(w, ms[..n])
  }

  /** The frames that a mirror makes out of the messages, in order. */
  ghost function HeardFrames(w: World, ms: seq<Message>): seq<Frame> {
    if ms == [] then []
    else
      var n := |ms| - 1;
      HeardFrames(w, ms[..n]) +
      if ms[n].FrameOut? && HeardAs(w, ms[n]).Accepted? then [HeardAs(w, ms[n]).frame] else []
  }

  function CountFrames(ms: seq<Message>): nat {
    if ms == [] then 0
    else CountFrames(ms[..|ms| - 1]) + if ms[|ms| - 1].FrameOut? then 1 else 0
  }

  /** The compact lines of the last `n` frames, newest first. */
  function TailOf(codec: TimeCodec, frames: seq<Frame>, n: nat): seq<string> {
    var size := if n < |frames| then n else |frames|;
    seq(size, i requires 0 <= i < size => ToCompactLine(codec, frames[|frames| - 1 - i]))
  }

  lemma {:induction false} FramesHeardConcat(a: seq<Reading>, b: seq<Reading>)
    ensures FramesHeard(a + b) == FramesHeard(a) + FramesHeard(b)
  {
    if a == [] {
      assert a + b == b;
    } else {
      assert (a + b)[1..] == a[1..] + b;
      FramesHeardConcat(a[1..], b);
    }
  }

  lemma {:induction false} IgnoredHeard(pre: seq<Reading>)
    requires forall i :: 0 <= i < |pre| ==> pre[i] == Heard(Ignored)
    ensures FramesHeard(pre) == []
  {
    if pre != [] {
      IgnoredHeard(pre[1..]);
    }
  }

  lemma MessageReadingQuiet(w: World, m: Message)
    requires Sane(w) && SoundMessage(w, m)
    ensures !HeardAs(w, m).Rejected?
    ensures m.FrameOut? <==> HeardAs(w, m).Accepted?
    ensures m.FrameOut? ==> HeardAs(w, m).frame.ts == Some(Stamped(m.frame, m.now))
  {
    hide Parse, TextOf, SoundMessage;
    MessageHeard(w, m);
  }

  function FileAll(frames: seq<Frame>): seq<Filed>
    requires forall i :: 0 <= i < |frames| ==> frames[i].ts.Some?
  {
    seq(|frames|, i requires 0 <= i < |frames| => Filed(frames[i], frames[i].ts.value))
  }

  lemma NoTable()
    ensures Table(FileAll([])) == map[]
  {
  }

  lemma TableAppend(frames: seq<Frame>, f: Frame)
    requires f.ts.Some? && forall i :: 0 <= i < |frames| ==> frames[i].ts.Some?
    ensures forall i :: 0 <= i < |frames + [f]| ==> (frames + [f])[i].ts.Some?
    ensures Table(FileAll(frames + [f])) == Table(FileAll(frames))[KeyOf(f) := EntityOf(f, f.ts.value)]
  {
    hide KeyOf, EntityOf;
    assert FileAll(frames + [f])[..|frames|] == FileAll(frames);
  }

  lemma {:induction false} TableOfReadings(w: World, ms: seq<Message>)
    requires Sane(w) && AllSound(w, ms)
    ensures forall i :: 0 <= i < |FramesHeard(MessageReadings(w, ms))| ==> FramesHeard(MessageReadings(w, ms))[i].ts.Some?
    ensures Table(FileAll(FramesHeard(MessageReadings(w, ms)))) == TableOf(w, ms)
    ensures FramesHeard(MessageReadings(w, ms)) == HeardFrames(w, ms) && |HeardFrames(w, ms)| == CountFrames(ms)
  {
    hide HeardAs, SoundMessage, KeyOf, EntityOf, FileAll, Table;
    if ms == [] {
      NoTable();
    }
    if ms != [] {
      var n := |ms| - 1;
      TableOfReadings(w, ms[..n]);
      var before := FramesHeard(MessageReadings(w, ms[..n]));
      var last := [Heard(HeardAs(w, ms[n]))];
      assert MessageReadings(w, ms) == MessageReadings(w, ms[..n]) + last;
      FramesHeardConcat(MessageReadings(w, ms[..n]), last);
      MessageReadingQuiet(w, ms[n]);
      assert last[1..] == [];
      if ms[n].FrameOut? {
        var f := HeardAs(w, ms[n]).frame;
        assert FramesHeard(last) == [f];
        TableAppend(before, f);
      } else {
        assert FramesHeard(last) == [];
        assert before + [] == before;
      }
    }
  }

  lemma FiledAll(frames: seq<Frame>, filed: seq<Filed>)
    requires |filed| == |frames| && forall i :: 0 <= i < |frames| ==> frames[i].ts.Some?
    requires forall i :: 0 <= i < |frames| ==> filed[i] == Filed(frames[i], frames[i].ts.value)
    ensures filed == FileAll(frames)
  {
  }

  lemma TailOfFiled(codec: TimeCodec, frames: seq<Frame>, n: nat)
    requires forall i :: 0 <= i < |frames| ==> frames[i].ts.Some?
    ensures Newest(Compact(codec, FileAll(frames)), n) == TailOf(codec, frames, n)
  {
    hide ToCompactLine;
  }

  /** What readings without an error leave in a fresh mirror. */
  lemma QuietView(
    codec: TimeCodec, strict: bool, readings: seq<Reading>, frames: seq<Frame>, clock: nat -> Stamp, options: Options)
    requires forall i :: 0 <= i < |readings| ==> Quiet(readings[i])
    requires FramesHeard(readings) == frames && forall i :: 0 <= i < |frames| ==> frames[i].ts.Some?
    ensures
      var v := IngestAll(codec, Fresh(options), Deliver(strict, readings), clock);
      && v.parseErrors == 0 && v.ioErrors == 0
      && v.framesSeen == |frames| && v.tail == TailOf(codec, frames, options.tailSize)
      && v.entities == Table(FileAll(frames))
  {
    hide ToCompactLine, Table, FramesHeard, Deliver, IngestAll, FiledFrames, Compact, Newest, CountParseErrors, CountIoErrors,
      TailOf, FileAll, FrameMsgs, Quiet;
    DeliverQuiet(strict, readings);
    FiledFrameMsgs(frames, clock);
    FrameMsgsHaveNoErrors(frames);
    IngestAllShape(codec, options, FrameMsgs(frames), clock);
    FiledAll(frames, FiledFrames(FrameMsgs(frames), clock));
    TailOfFiled(codec, frames, options.tailSize);
  }

  lemma QuietReadings(w: World, pre: seq<Reading>, ms: seq<Message>)
    requires Sane(w) && AllSound(w, ms) && forall i :: 0 <= i < |pre| ==> pre[i] == Heard(Ignored)
    ensures
      var readings := pre + MessageReadings(w, ms);
      && (forall i :: 0 <= i < |readings| ==> Quiet(readings[i]))
      && FramesHeard(readings) == HeardFrames(w, ms)
  {
    hide HeardAs, SoundMessage;
    var readings := pre + MessageReadings(w, ms);
    forall i | 0 <= i < |readings| ensures Quiet(readings[i]) {
      if i >= |pre| {
        MessageReadingQuiet(w, ms[i - |pre|]);
      }
    }
    FramesHeardConcat(pre, MessageReadings(w, ms));
    IgnoredHeard(pre);
    TableOfReadings(w, ms);
    assert [] + HeardFrames(w, ms) == HeardFrames(w, ms);
  }

  /**
   The view of a drained mirror: no errors, one frame counted for each sent, the compact lines of the
   newest ones, and that table.
   */
  lemma MirrorOfMessages(
    cfg: Config, greeting: bytes, ms: seq<Message>, strict: bool, clock: nat -> Stamp, options: Options)
    requires Sane(cfg.w) && AllSound(cfg.w, ms) && greeting <= Banner(cfg)
    ensures
      var v := MirrorOf(cfg.w.codec, strict, greeting + Concat(WireAll(cfg.w, ms)), clock, options);
      var heard := ms[Swallowed(cfg, greeting, ms)..];
      && v.parseErrors == 0 && v.ioErrors == 0
      && v.framesSeen == CountFrames(heard)
      && v.tail == TailOf(cfg.w.codec, HeardFrames(cfg.w, heard), options.tailSize)
      && v.entities == TableOf(cfg.w, heard)
  {
    hide Encode, Banner, WireAll, SoundMessage, ReadingsOf, HeardAs, KeyOf, ToCompactLine, RowOf, TailOf, MessageReadings,
      FramesHeard, Deliver, IngestAll, HeardFrames, TableOf, CountFrames;
    var pre := ConnectionReadings(cfg, greeting, ms);
    var heard := ms[Swallowed(cfg, greeting, ms)..];
    QuietReadings(cfg.w, pre, heard);
    TableOfReadings(cfg.w, heard);
    QuietView(cfg.w.codec, strict, pre + MessageReadings(cfg.w, heard), HeardFrames(cfg.w, heard), clock, options);
  }
}

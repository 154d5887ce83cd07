/**
 The hawkd protocol as a state machine (crates/hawkd/src/main.rs, crates/hawkd/src/unix_ingest.rs).

 Producers put messages into one FIFO channel; the broadcaster takes them out and writes each to
 every client; the acceptor greets a new connection and then, in a separate step, pushes it to the
 client list. A run is any sequence of such steps; the environment chooses the order, every input
 byte, every clock reading and the outcome of every write.
 */
module Spine {
  import opened Basics
  import opened HawkFrame
  import opened Utf8
  import opened Framing
  import opened Producers
  import opened Accounting
  import opened Clients

  /** How hawkd was started: its environment, `--strict` and `--client-banner`. */
  datatype Config = Config(w: World, strict: bool, banner: bool)

  const BANNER_TEXT: string := "# hawkd connected"

  function Banner(cfg: Config): bytes {
    if cfg.banner then Encode(BANNER_TEXT + "\n") else []
  }

  /** A reading loop: the lines it still has to read, those it has read with the clock of each. */
  datatype Producer = Producer(src: Source, todo: seq<Item>, items: seq<Item>, clocks: seq<Stamp>, running: bool)

  /** A message in the channel's history and the producer that sent it (`None` for a watcher). */
  datatype Sent = Sent(from: Option<nat>, msg: Message)

  /** A dropped client and the number of the broadcast at which its write failed. */
  datatype Closed = Closed(client: Client, at: nat)

  datatype State = State(
    producers: seq<Producer>,
    sent: seq<Sent>,
    queue: seq<bytes>,
    log: seq<bytes>,
    greeted: Option<bytes>,
    clients: seq<Client>,
    closed: seq<Closed>)

  const INITIAL := State([], [], [], [], None, [], [])

  datatype Step =
    | Attach(src: Source, input: bytes, eof: bool)
    | Read(p: nat, now: Stamp)
    | Watch(frame: Frame, at: Stamp)
    | Greet(greeting: Write)
    | Push
    | Broadcast(writes: seq<Write>)

  /** Paths are one line; clocks can be printed; watchers send one-line frames. */
  ghost predicate Enabled(cfg: Config, s: State, step: Step) {
    match step
    case Attach(src, _, _) => src.Ingest? ==> '\n' !in src.path
    case Read(p, now) =>
      p < |s.producers| && s.producers[p].running && s.producers[p].todo != [] && Formattable(cfg.w.codec, now)
    case Watch(f, now) => OneLineFrame(f) && Formattable(cfg.w.codec, Stamped(f, now))
    case Greet(_) => s.greeted.None?
    case Push => s.greeted.Some?
    case Broadcast(writes) => s.queue != [] && |writes| == |s.clients|
  }

  function ItemsFrom(src: Source, input: bytes, eof: bool): seq<Item> {
    if src.Stdin? then StdinItems(input, eof) else SocketItems(input, eof)
  }

  function Send(w: World, s: State, src: Option<nat>, said: Option<Message>): State {
    match said
    case None => s
    case Some(m) => s.(sent := s.sent + [Sent(src, m)], queue := s.queue + [Wire(w, m)])
  }

  function ReadOne(p: Producer, now: Stamp, stops: bool): Producer
    requires p.todo != []
  {
    p.(todo := p.todo[1..], items := p.items + [p.todo[0]], clocks := p.clocks + [now], running := !stops)
  }

  function Close(clients: seq<Client>, m: bytes, writes: seq<Write>, at: nat): seq<Closed>
    requires |writes| == |clients|
  {
    var gone := Casualties(clients, m, writes);
    seq(|gone|, i requires 0 <= i < |gone| => Closed(gone[i], at))
  }

  /** One step of hawkd; a step that is not enabled does nothing. */
  ghost function Next(cfg: Config, s: State, step: Step): State {
    if !Enabled(cfg, s, step) then s
    else
      match step
      case Attach(src, input, eof) =>
        s.(producers := s.producers + [Producer(src, ItemsFrom(src, input, eof), [], [], true)])
      case Read(p, now) =>
        var r := ReplyTo(cfg.w, cfg.strict, s.producers[p].src, s.producers[p].todo[0], now);
        Send(cfg.w, s, Some(p), r.said).(producers := s.producers[p := ReadOne(s.producers[p], now, r.stops)])
      case Watch(f, now) => Send(cfg.w, s, None, Some(FrameOut(f, now)))
      case Greet(write) => s.(greeted := Some(Arrived(Banner(cfg), write)))
      case Push => s.(greeted := None, clients := s.clients + [Client(|s.log|, s.greeted.value, s.greeted.value)])
      case Broadcast(writes) =>
        var m := s.queue[0];
        s.(queue := s.queue[1..],
           log := s.log + [m],
           clients := Survivors(s.clients, m, writes),
           closed := s.closed + Close(s.clients, m, writes, |s.log|))
  }

  ghost function Exec(cfg: Config, steps: seq<Step>): State {
    if steps == [] then INITIAL
    else Next(cfg, Exec(cfg, steps[..|steps| - 1]), steps[|steps| - 1])
  }

  // ----- Channel: nothing is lost, duplicated or reordered

  function Wires(w: World, sent: seq<Sent>): seq<bytes> {
    seq(|sent|, i requires 0 <= i < |sent| => Wire(w, sent[i].msg))
  }

  ghost predicate ChannelInv(cfg: Config, s: State) {
    && s.log + s.queue == Wires(cfg.w, s.sent)
    && (forall i :: 0 <= i < |s.sent| ==> SoundMessage(cfg.w, s.sent[i].msg))
    && (forall i :: 0 <= i < |s.sent| && s.sent[i].from.Some? ==> LineMessage(s.sent[i].msg))
  }

  /** What a line producer sends: a frame as the parser returns it, an error receipt, or a notice. */
  ghost predicate LineMessage(m: Message) {
    m.FrameOut? ==> CleanFrame(m.frame) || IsReceipt(m.frame)
  }

  lemma SendKeepsChannel(cfg: Config, s: State, src: Option<nat>, said: Option<Message>)
    requires ChannelInv(cfg, s)
    requires said.Some? ==> SoundMessage(cfg.w, said.value)
    requires said.Some? && src.Some? ==> LineMessage(said.value)
    ensures ChannelInv(cfg, Send(cfg.w, s, src, said))
  {
    hide Wire, SoundMessage, LineMessage;
    if said.Some? {
      var s' := Send(cfg.w, s, src, said);
      assert s'.log + s'.queue == (s.log + s.queue) + [Wire(cfg.w, said.value)];
      assert Wires(cfg.w, s'.sent) == Wires(cfg.w, s.sent) + [Wire(cfg.w, said.value)];
    }
  }

  // ----- Producers: each one's messages are those of its own sequential loop

  predicate ItemOk(src: Source, item: Item) {
    if src.Stdin? then EolAtEndItem(item) else NoEolItem(item)
  }

  lemma ItemsFromOk(src: Source, input: bytes, eof: bool)
    ensures forall i :: 0 <= i < |ItemsFrom(src, input, eof)| ==> ItemOk(src, ItemsFrom(src, input, eof)[i])
  {
    ItemsAreOneLine(input, eof);
  }

  lemma AcceptedIsSound(w: World, src: Source, item: Item, now: Stamp)
    requires Sane(w) && item.Line? && ItemOk(src, item) && Formattable(w.codec, now)
    requires Parse(w.codec, item.text).Accepted?
    ensures SoundMessage(w, FrameOut(Parse(w.codec, item.text).frame, now))
    ensures LineMessage(FrameOut(Parse(w.codec, item.text).frame, now))
  {
    EolTrimmed(item);
    hide Parse, CleanFrame, OneLineFrame, TrimEol;
    ParsedIsClean(w.codec, item.text);
    ParsedIsOneLine(w.codec, item.text);
  }

  lemma ReceiptIsSound(w: World, path: string, raw: string, err: string, now: Stamp)
    requires Formattable(w.codec, now) && '\n' !in path && '\n' !in err && '\n' !in raw
    requires Receipt(now, path, raw, err).Some?
    ensures SoundMessage(w, FrameOut(Receipt(now, path, raw, err).value, now))
    ensures LineMessage(FrameOut(Receipt(now, path, raw, err).value, now))
  {
    hide OneLineFrame, Clip, ReceiptFrame, CleanFrame, IsReceipt;
    ReceiptIsReceipt(now, path, Clip(raw).value, err);
    ClipExact(raw);
    ReceiptOneLine(now, path, Clip(raw).value, err);
    assert Receipt(now, path, raw, err).value == ReceiptFrame(now, path, Clip(raw).value, err);
    ReceiptStamp(now, path, Clip(raw).value, err);
  }

  lemma ReceiptStamp(now: Stamp, path: string, clipped: string, err: string)
    ensures Stamped(ReceiptFrame(now, path, clipped, err), now) == now
  {
  }

  /** Whatever a producer reads, what it sends is one sound message. */
  lemma ReplyIsSound(w: World, strict: bool, src: Source, item: Item, now: Stamp)
    requires Sane(w) && ItemOk(src, item) && Formattable(w.codec, now)
    requires src.Ingest? ==> '\n' !in src.path
    ensures
      var r := ReplyTo(w, strict, src, item, now);
      r.said.Some? ==> SoundMessage(w, r.said.value) && LineMessage(r.said.value)
  {
    hide Parse, Receipt;
    if item.Line? {
      var p := Parse(w.codec, item.text);
      if p.Accepted? {
        hide SoundMessage, LineMessage;
        AcceptedIsSound(w, src, item, now);
      } else if p.Rejected? && src.Ingest? && Receipt(now, src.path, item.text, w.debug(p.error)).Some? {
        hide SoundMessage, LineMessage;
        ReceiptIsSound(w, src.path, item.text, w.debug(p.error), now);
      }
    }
  }

  function Project(sent: seq<Sent>, p: nat): seq<Message> {
    if sent == [] then []
    else
      var last := sent[|sent| - 1];
      Project(sent[..|sent| - 1], p) + if last.from == Some(p) then [last.msg] else []
  }

  lemma {:induction false} ProjectNone(sent: seq<Sent>, p: nat)
    requires forall i :: 0 <= i < |sent| ==> sent[i].from != Some(p)
    ensures Project(sent, p) == []
  {
    if sent != [] {
      ProjectNone(sent[..|sent| - 1], p);
    }
  }

  lemma ProjectSend(w: World, s: State, src: Option<nat>, said: Option<Message>, p: nat)
    ensures Project(Send(w, s, src, said).sent, p) ==
            if said.Some? && src == Some(p) then Project(s.sent, p) + [said.value] else Project(s.sent, p)
  {
    if said.Some? {
      assert (s.sent + [Sent(src, said.value)])[..|s.sent|] == s.sent;
    }
  }

  /** The replies a producer has given so far. */
  function RepliesOf(cfg: Config, p: Producer): seq<Reply>
    requires |p.clocks| == |p.items|
  {
    Replies(cfg.w, cfg.strict, p.src, p.items, p.clocks)
  }

  ghost predicate ProducerOk(cfg: Config, p: Producer, sent: seq<Message>) {
    && (p.src.Ingest? ==> '\n' !in p.src.path)
    && (forall i :: 0 <= i < |p.todo| ==> ItemOk(p.src, p.todo[i]))
    && |p.clocks| == |p.items|
    && var replies := RepliesOf(cfg, p);
    && sent == Said(replies)
    && (forall i :: 0 <= i < |replies| - 1 ==> !replies[i].stops)
    && (replies != [] ==> (replies[|replies| - 1].stops <==> !p.running))
    && (replies == [] ==> p.running)
  }

  ghost predicate ProducersInv(cfg: Config, s: State) {
    && (forall p :: 0 <= p < |s.producers| ==> ProducerOk(cfg, s.producers[p], Project(s.sent, p)))
    && (forall i :: 0 <= i < |s.sent| ==> s.sent[i].from.Some? ==> s.sent[i].from.value < |s.producers|)
  }

  lemma ReadKeepsProducer(cfg: Config, p: Producer, sent: seq<Message>, now: Stamp)
    requires ProducerOk(cfg, p, sent) && p.running && p.todo != []
    ensures
      var r := ReplyTo(cfg.w, cfg.strict, p.src, p.todo[0], now);
      ProducerOk(cfg, ReadOne(p, now, r.stops), if r.said.Some? then sent + [r.said.value] else sent)
  {
    hide ReplyTo;
    var r := ReplyTo(cfg.w, cfg.strict, p.src, p.todo[0], now);
    var p' := ReadOne(p, now, r.stops);
    assert RepliesOf(cfg, p') == RepliesOf(cfg, p) + [r];
    assert RepliesOf(cfg, p')[..|p.items|] == RepliesOf(cfg, p);
  }

  lemma AttachKeepsProducers(cfg: Config, s: State, src: Source, input: bytes, eof: bool)
    requires ProducersInv(cfg, s)
    requires Enabled(cfg, s, Attach(src, input, eof))
    ensures ProducersInv(cfg, Next(cfg, s, Attach(src, input, eof)))
  {
    hide ItemsFrom, ItemOk, ReplyTo;
    var s' := Next(cfg, s, Attach(src, input, eof));
    ItemsFromOk(src, input, eof);
    ProjectNone(s.sent, |s.producers|);
    var p := s'.producers[|s.producers|];
    assert RepliesOf(cfg, p) == [];
    assert ProducerOk(cfg, p, []);
  }

  lemma ReadKeepsProducers(cfg: Config, s: State, p: nat, now: Stamp)
    requires ProducersInv(cfg, s) && Enabled(cfg, s, Read(p, now))
    ensures ProducersInv(cfg, Next(cfg, s, Read(p, now)))
  {
    hide ReplyTo, ProducerOk;
    var r := ReplyTo(cfg.w, cfg.strict, s.producers[p].src, s.producers[p].todo[0], now);
    var s' := Next(cfg, s, Read(p, now));
    ReadKeepsProducer(cfg, s.producers[p], Project(s.sent, p), now);
    forall q | 0 <= q < |s.producers| ensures ProducerOk(cfg, s'.producers[q], Project(s'.sent, q)) {
      ProjectSend(cfg.w, s, Some(p), r.said, q);
    }
  }

  lemma WatchKeepsProducers(cfg: Config, s: State, f: Frame, now: Stamp)
    requires ProducersInv(cfg, s) && Enabled(cfg, s, Watch(f, now))
    ensures ProducersInv(cfg, Next(cfg, s, Watch(f, now)))
  {
    hide ProducerOk;
    var s' := Next(cfg, s, Watch(f, now));
    forall q | 0 <= q < |s.producers| ensures ProducerOk(cfg, s'.producers[q], Project(s'.sent, q)) {
      ProjectSend(cfg.w, s, None, Some(FrameOut(f, now)), q);
    }
  }

  // ----- Clients: delivery

  /** A live client has its greeting and then every message broadcast since it joined. */
  ghost predicate Serving(log: seq<bytes>, c: Client) {
    c.joined <= |log| && c.received == c.greeting + Concat(log[c.joined..])
  }

  /** A dropped client has everything up to the fatal broadcast and a prefix of that one. */
  ghost predicate CutOff(log: seq<bytes>, d: Closed) {
    && d.client.joined <= d.at < |log|
    && d.client.greeting + Concat(log[d.client.joined..d.at]) <= d.client.received
    && d.client.received <= d.client.greeting + Concat(log[d.client.joined..d.at + 1])
  }

  ghost predicate ClientsInv(cfg: Config, s: State) {
    && (s.greeted.Some? ==> s.greeted.value <= Banner(cfg))
    && (forall i :: 0 <= i < |s.clients| ==> Serving(s.log, s.clients[i]) && s.clients[i].greeting <= Banner(cfg))
    && (forall i :: 0 <= i < |s.closed| ==> CutOff(s.log, s.closed[i]) && s.closed[i].client.greeting <= Banner(cfg))
  }

  lemma OfferServes(log: seq<bytes>, m: bytes, c: Client, write: Write)
    requires Serving(log, c)
    ensures write.Written? ==> Serving(log + [m], Offered(c, m, write))
    ensures CutOff(log + [m], Closed(Offered(c, m, write), |log|))
  {
    hide Concat, Arrived;
    var log', past := log + [m], log[c.joined..];
    ConcatAppend(past, m);
    LogGrows(log, m, c.joined);
    ArrivedPrefix(m, write);
    var base, got := c.greeting + Concat(past), Arrived(m, write);
    assert base + m == c.greeting + Concat(log'[c.joined..]);
    assert base <= base + got <= base + m;
  }

  lemma LogGrows(log: seq<bytes>, m: bytes, a: nat)
    requires a <= |log|
    ensures
      var log' := log + [m];
      log'[a..] == log[a..] + [m] && log'[a..|log|] == log[a..] && log'[a..|log| + 1] == log'[a..]
  {
  }

  lemma ArrivedPrefix(m: bytes, write: Write)
    ensures Arrived(m, write) <= m && (write.Written? ==> Arrived(m, write) == m)
  {
  }

  lemma CutOffGrows(log: seq<bytes>, m: bytes, d: Closed)
    requires CutOff(log, d)
    ensures CutOff(log + [m], d)
  {
    assert (log + [m])[d.client.joined..d.at] == log[d.client.joined..d.at];
    assert (log + [m])[d.client.joined..d.at + 1] == log[d.client.joined..d.at + 1];
  }

  lemma BroadcastKeepsClients(cfg: Config, s: State, writes: seq<Write>)
    requires ClientsInv(cfg, s) && Enabled(cfg, s, Broadcast(writes))
    ensures ClientsInv(cfg, Next(cfg, s, Broadcast(writes)))
  {
    hide Banner, Serving, CutOff, Survivors, Casualties;
    var s' := Next(cfg, s, Broadcast(writes));
    var m := s.queue[0];
    forall j | 0 <= j < |s'.clients| ensures Serving(s'.log, s'.clients[j]) && s'.clients[j].greeting <= Banner(cfg) {
      var i := SurvivorOrigin(s.clients, m, writes, j);
      OfferServes(s.log, m, s.clients[i], Written);
    }
    forall j | 0 <= j < |s'.closed| ensures CutOff(s'.log, s'.closed[j]) && s'.closed[j].client.greeting <= Banner(cfg) {
      if j < |s.closed| {
        CutOffGrows(s.log, m, s.closed[j]);
      } else {
        var i := CasualtyOrigin(s.clients, m, writes, j - |s.closed|);
        OfferServes(s.log, m, s.clients[i], writes[i]);
      }
    }
  }

  lemma GreetKeepsClients(cfg: Config, s: State, write: Write)
    requires ClientsInv(cfg, s) && Enabled(cfg, s, Greet(write))
    ensures ClientsInv(cfg, Next(cfg, s, Greet(write)))
  {
    hide Banner, Serving, CutOff, Arrived;
    ArrivedPrefix(Banner(cfg), write);
  }

  lemma PushKeepsClients(cfg: Config, s: State)
    requires ClientsInv(cfg, s) && Enabled(cfg, s, Push)
    ensures ClientsInv(cfg, Next(cfg, s, Push))
  {
    hide Banner, CutOff;
    assert s.log[|s.log|..] == [];
  }

  // ----- The invariant of every run

  ghost predicate Inv(cfg: Config, s: State) {
    ChannelInv(cfg, s) && ProducersInv(cfg, s) && ClientsInv(cfg, s)
  }

  lemma ReadKeepsChannel(cfg: Config, s: State, p: nat, now: Stamp)
    requires Sane(cfg.w) && ChannelInv(cfg, s) && ProducersInv(cfg, s) && Enabled(cfg, s, Read(p, now))
    ensures ChannelInv(cfg, Next(cfg, s, Read(p, now)))
  {
    hide ReplyTo, SoundMessage, LineMessage, ItemOk;
    var prod := s.producers[p];
    assert ProducerOk(cfg, prod, Project(s.sent, p));
    var r := ReplyTo(cfg.w, cfg.strict, prod.src, prod.todo[0], now);
    ReplyIsSound(cfg.w, cfg.strict, prod.src, prod.todo[0], now);
    SendKeepsChannel(cfg, s, Some(p), r.said);
  }

  lemma BroadcastKeepsChannel(cfg: Config, s: State, writes: seq<Write>)
    requires ChannelInv(cfg, s) && Enabled(cfg, s, Broadcast(writes))
    ensures ChannelInv(cfg, Next(cfg, s, Broadcast(writes)))
  {
    hide Wires, SoundMessage, LineMessage, Survivors, Casualties;
    var s' := Next(cfg, s, Broadcast(writes));
    assert s'.log + s'.queue == s.log + s.queue;
  }

  lemma StepKeepsInv(cfg: Config, s: State, step: Step)
    requires Sane(cfg.w) && Inv(cfg, s)
    ensures Inv(cfg, Next(cfg, s, step))
  {
    if Enabled(cfg, s, step) {
      match step {
        case Attach(src, input, eof) =>
          hide ChannelInv, ProducersInv, ClientsInv;
          AttachKeepsProducers(cfg, s, src, input, eof);
          ChannelFrame(cfg, s, Next(cfg, s, step));
          ClientsFrame(cfg, s, Next(cfg, s, step));
        case Read(p, now) =>
          hide ChannelInv, ProducersInv, ClientsInv, ReplyTo;
          ReadKeepsProducers(cfg, s, p, now);
          ReadKeepsChannel(cfg, s, p, now);
          ClientsFrame(cfg, s, Next(cfg, s, step));
        case Watch(f, now) =>
          hide ChannelInv, ProducersInv, ClientsInv;
          WatchKeepsProducers(cfg, s, f, now);
          SendKeepsChannel(cfg, s, None, Some(FrameOut(f, now)));
          ClientsFrame(cfg, s, Next(cfg, s, step));
        case Greet(write) =>
          hide ChannelInv, ProducersInv, ClientsInv;
          ChannelFrame(cfg, s, Next(cfg, s, step));
          ProducersFrame(cfg, s, Next(cfg, s, step));
          GreetKeepsClients(cfg, s, write);
        case Push =>
          hide ChannelInv, ProducersInv, ClientsInv;
          PushKeepsClients(cfg, s);
          ChannelFrame(cfg, s, Next(cfg, s, step));
          ProducersFrame(cfg, s, Next(cfg, s, step));
        case Broadcast(writes) =>
          hide ChannelInv, ProducersInv, ClientsInv, Survivors, Casualties;
          BroadcastKeepsClients(cfg, s, writes);
          BroadcastKeepsChannel(cfg, s, writes);
          ProducersFrame(cfg, s, Next(cfg, s, step));
      }
    }
  }

  lemma ChannelFrame(cfg: Config, s: State, s': State)
    requires ChannelInv(cfg, s) && s'.log == s.log && s'.queue == s.queue && s'.sent == s.sent
    ensures ChannelInv(cfg, s')
  {
  }

  lemma ProducersFrame(cfg: Config, s: State, s': State)
    requires ProducersInv(cfg, s) && s'.producers == s.producers && s'.sent == s.sent
    ensures ProducersInv(cfg, s')
  {
  }

  lemma ClientsFrame(cfg: Config, s: State, s': State)
    requires ClientsInv(cfg, s)
    requires s'.greeted == s.greeted && s'.clients == s.clients && s'.closed == s.closed && s'.log == s.log
    ensures ClientsInv(cfg, s')
  {
  }

  lemma {:induction false} RunKeepsInv(cfg: Config, steps: seq<Step>)
    requires Sane(cfg.w)
    ensures Inv(cfg, Exec(cfg, steps))
  {
    if steps != [] {
      RunKeepsInv(cfg, steps[..|steps| - 1]);
      StepKeepsInv(cfg, Exec(cfg, steps[..|steps| - 1]), steps[|steps| - 1]);
    } else {
      assert Wires(cfg.w, []) == [];
    }
  }
}

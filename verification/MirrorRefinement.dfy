/** The UI is a mirror of the spine: the end-to-end theorems over every run of hawkd. */
module MirrorRefinement {
  import opened Basics
  import opened Text
  import opened Severity
  import opened KvBag
  import opened HawkFrame
  import opened Cuts
  import Utf8
  import opened Producers
  import opened Clients
  import opened Spine
  import opened Mirror
  import opened EndToEnd

  lemma {:induction false} LastRow(w: World, ms: seq<Message>, j: nat, key: string)
    requires j < |ms| && Carries(w, ms[j], key)
    requires forall k :: j < k < |ms| ==> !Carries(w, ms[k], key)
    ensures key in TableOf(w, ms) && TableOf(w, ms)[key] == RowOf(w, ms[j])
  {
    hide HeardAs, RowOf;
    var n := |ms| - 1;
    if j < n {
      LastRow(w, ms[..n], j, key);
    }
  }

  lemma {:induction false} RowOrigin(w: World, ms: seq<Message>, key: string) returns (j: nat)
    requires key in TableOf(w, ms)
    ensures j < |ms| && Carries(w, ms[j], key)
    ensures forall k :: j < k < |ms| ==> !Carries(w, ms[k], key)
  {
    hide HeardAs, RowOf;
    var n := |ms| - 1;
    if Carries(w, ms[n], key) {
      j := n;
    } else {
      j := RowOrigin(w, ms[..n], key);
    }
  }

  function Between(sent: seq<Sent>, a: nat, b: nat): seq<Message>
    requires a <= b <= |sent|
  {
    seq(b - a, i requires 0 <= i < b - a => sent[a + i].msg)
  }

  /** The first broadcast that counts for a client, or the end of the log if none does yet. */
  function HeardFrom(cfg: Config, s: State, c: Client): nat {
    if FirstHeard(cfg, c) <= |s.log| then FirstHeard(cfg, c) else |s.log|
  }

  lemma LogIsWires(w: World, s: State, a: nat, b: nat)
    requires a <= b <= |s.log| <= |s.sent| && s.log + s.queue == Wires(w, s.sent)
    ensures s.log[a..b] == WireAll(w, Between(s.sent, a, b))
  {
    hide Wire;
    forall j | 0 <= j < b - a ensures s.log[a..b][j] == WireAll(w, Between(s.sent, a, b))[j] {
      assert s.log[a + j] == (s.log + s.queue)[a + j] == Wires(w, s.sent)[a + j];
    }
  }

  lemma DrainedTable(
    cfg: Config, steps: seq<Step>, i: nat, strict: bool, clock: nat -> Stamp, options: Options)
    requires Sane(cfg.w) && i < |Exec(cfg, steps).clients|
    ensures
      var s := Exec(cfg, steps);
      var c := s.clients[i];
      var v := MirrorOf(cfg.w.codec, strict, c.received, clock, options);
      && |s.log| <= |s.sent|
      && v.parseErrors == 0 && v.ioErrors == 0
      && var heard := Between(s.sent, HeardFrom(cfg, s, c), |s.log|);
      && v.framesSeen == CountFrames(heard)
      && v.tail == TailOf(cfg.w.codec, HeardFrames(cfg.w, heard), options.tailSize)
      && v.entities == TableOf(cfg.w, heard)
  {
    hide Exec, ProducersInv, Banner, Wire, SoundMessage, LineMessage, MirrorOf, TableOf, CountFrames, TailOf, HeardFrames;
    RunKeepsInv(cfg, steps);
    var s := Exec(cfg, steps);
    var c := s.clients[i];
    assert |s.log + s.queue| == |s.sent|;
    var ms := Between(s.sent, c.joined, |s.log|);
    LogIsWires(cfg.w, s, c.joined, |s.log|);
    assert s.log[c.joined..|s.log|] == s.log[c.joined..];
    MirrorOfMessages(cfg, c.greeting, ms, strict, clock, options);
    assert ms[Swallowed(cfg, c.greeting, ms)..] == Between(s.sent, HeardFrom(cfg, s, c), |s.log|);
  }

  /** The j-th broadcast of a run carries a frame for `key`. */
  ghost predicate Broadcasts(cfg: Config, s: State, j: nat, key: string) {
    j < |s.log| <= |s.sent| && Carries(cfg.w, s.sent[j].msg, key)
  }

  ghost predicate LastBroadcast(cfg: Config, s: State, j: nat, key: string) {
    Broadcasts(cfg, s, j, key) && forall k :: j < k < |s.log| ==> !Broadcasts(cfg, s, k, key)
  }

  /**
   Mirror refinement. In every run, a live mirror that has read all it received has met no error,
   strict or not; it has a row for a key exactly if a frame for that key was broadcast since the
   mirror joined; and the row is that of the last such frame, whatever clock the mirror has. It has
   counted each of those frames once and shows the newest in its tail.
   (If only part of the banner arrived, the first broadcast is lost to it: see SwallowExact.)
   */
  lemma MirrorHoldsLastFrames(
    cfg: Config, steps: seq<Step>, i: nat, strict: bool, clock: nat -> Stamp, options: Options)
    requires Sane(cfg.w) && i < |Exec(cfg, steps).clients|
    ensures
      var s := Exec(cfg, steps);
      var c := s.clients[i];
      var v := MirrorOf(cfg.w.codec, strict, c.received, clock, options);
      && v.parseErrors == 0 && v.ioErrors == 0
      && |s.log| <= |s.sent|
      && var heard := Between(s.sent, HeardFrom(cfg, s, c), |s.log|);
      && v.framesSeen == CountFrames(heard)
      && v.tail == TailOf(cfg.w.codec, HeardFrames(cfg.w, heard), options.tailSize)
      && (forall key :: key in v.entities <==> exists j: nat :: FirstHeard(cfg, c) <= j && Broadcasts(cfg, s, j, key))
      && (forall key, j: nat :: FirstHeard(cfg, c) <= j && LastBroadcast(cfg, s, j, key) ==>
            key in v.entities && v.entities[key] == RowOf(cfg.w, s.sent[j].msg))
  {
    hide Exec, MirrorOf, TableOf, RowOf, HeardAs, Banner, CountFrames, TailOf, HeardFrames;
    DrainedTable(cfg, steps, i, strict, clock, options);
    var s := Exec(cfg, steps);
    var c := s.clients[i];
    var v := MirrorOf(cfg.w.codec, strict, c.received, clock, options);
    forall key ensures key in v.entities <==> exists j: nat :: FirstHeard(cfg, c) <= j && Broadcasts(cfg, s, j, key) {
      if key in v.entities {
        var j := RowToBroadcast(cfg, s, c, key);
      }
      if j: nat :| FirstHeard(cfg, c) <= j && Broadcasts(cfg, s, j, key) {
        var last := LastAtOrAfter(cfg, s, j, key);
        BroadcastToRow(cfg, s, c, last, key);
      }
    }
    forall key, j: nat | FirstHeard(cfg, c) <= j && LastBroadcast(cfg, s, j, key)
      ensures key in v.entities && v.entities[key] == RowOf(cfg.w, s.sent[j].msg)
    {
      BroadcastToRow(cfg, s, c, j, key);
    }
  }

  lemma BroadcastToRow(cfg: Config, s: State, c: Client, j: nat, key: string)
    requires |s.log| <= |s.sent|
    requires FirstHeard(cfg, c) <= j && LastBroadcast(cfg, s, j, key)
    ensures
      var t := TableOf(cfg.w, Between(s.sent, HeardFrom(cfg, s, c), |s.log|));
      key in t && t[key] == RowOf(cfg.w, s.sent[j].msg)
  {
    hide TableOf, RowOf, Carries, Banner;
    var from := HeardFrom(cfg, s, c);
    var ms := Between(s.sent, from, |s.log|);
    assert ms[j - from] == s.sent[j].msg;
    forall k | j - from < k < |ms| ensures !Carries(cfg.w, ms[k], key) {
      assert !Broadcasts(cfg, s, from + k, key);
    }
    LastRow(cfg.w, ms, j - from, key);
  }

  lemma RowToBroadcast(cfg: Config, s: State, c: Client, key: string) returns (j: nat)
    requires |s.log| <= |s.sent|
    requires key in TableOf(cfg.w, Between(s.sent, HeardFrom(cfg, s, c), |s.log|))
    ensures FirstHeard(cfg, c) <= j && LastBroadcast(cfg, s, j, key)
  {
    hide TableOf, RowOf, Carries, Banner;
    var from := HeardFrom(cfg, s, c);
    var ms := Between(s.sent, from, |s.log|);
    var i := RowOrigin(cfg.w, ms, key);
    j := from + i;
    forall k | j < k < |s.log| ensures !Broadcasts(cfg, s, k, key) {
      assert ms[k - from] == s.sent[k].msg;
    }
  }

  lemma {:induction false} LastAtOrAfter(cfg: Config, s: State, j: nat, key: string) returns (last: nat)
    requires Broadcasts(cfg, s, j, key)
    ensures j <= last && LastBroadcast(cfg, s, last, key)
    decreases |s.log| - j
  {
    hide Carries;
    if k: nat :| j < k && Broadcasts(cfg, s, k, key) {
      last := LastAtOrAfter(cfg, s, k, key);
    } else {
      last := j;
    }
  }

  // ----- The broadcast that an unfinished greeting swallows

  /** The row of the first message is there unless a later one for its key replaced it. */
  lemma {:induction false} FirstRow(w: World, ms: seq<Message>)
    requires ms != []
    ensures ms[0].FrameOut? && HeardAs(w, ms[0]).Accepted? ==>
      TableOf(w, ms) == map[KeyOf(HeardAs(w, ms[0]).frame) := RowOf(w, ms[0])] + TableOf(w, ms[1..])
    ensures !(ms[0].FrameOut? && HeardAs(w, ms[0]).Accepted?) ==> TableOf(w, ms) == TableOf(w, ms[1..])
  {
    hide HeardAs, RowOf, KeyOf;
    var n := |ms| - 1;
    if n == 0 {
      assert ms[..0] == [] && ms[1..] == [];
    } else {
      FirstRow(w, ms[..n]);
      assert ms[..n][1..] == ms[1..][..n - 1];
      assert ms[..n][0] == ms[0] && ms[1..][n - 1] == ms[n];
    }
  }

  /** Leaving out the first message changes the table unless it is no frame or a later one has its key. */
  lemma FirstRowMatters(w: World, ms: seq<Message>)
    requires ms != [] && (ms[0].FrameOut? <==> HeardAs(w, ms[0]).Accepted?)
    ensures TableOf(w, ms[1..]) == TableOf(w, ms) <==>
            ms[0].Notice? || exists k, key :: 0 < k < |ms| && Carries(w, ms[0], key) && Carries(w, ms[k], key)
  {
    hide HeardAs, RowOf, TableOf;
    FirstRow(w, ms);
    if ms[0].FrameOut? {
      var key, rest := KeyOf(HeardAs(w, ms[0]).frame), ms[1..];
      if key in TableOf(w, rest) {
        var j := RowOrigin(w, rest, key);
        assert ms[j + 1] == rest[j] && Carries(w, ms[0], key) && Carries(w, ms[j + 1], key);
      }
      if k :| 0 < k < |ms| && Carries(w, ms[k], key) {
        assert rest[k - 1] == ms[k];
        LaterRow(w, rest, k - 1, key);
      }
      assert key in map[key := RowOf(w, ms[0])] + TableOf(w, rest);
    }
  }

  lemma {:induction false} LaterRow(w: World, ms: seq<Message>, k: nat, key: string)
    requires k < |ms| && Carries(w, ms[k], key)
    ensures key in TableOf(w, ms)
  {
    hide HeardAs, RowOf;
    var n := |ms| - 1;
    if k < n {
      LaterRow(w, ms[..n], k, key);
    }
  }

  /** A later broadcast carries a frame with the key of broadcast `a`. */
  ghost predicate Repeated(cfg: Config, s: State, a: nat) {
    exists j: nat, key :: a < j && Broadcasts(cfg, s, a, key) && Broadcasts(cfg, s, j, key)
  }

  /**
   A drained mirror shows the table of everything broadcast since it joined, if and only if its greeting
   arrived whole or not at all, or nothing was broadcast since, or the first broadcast was no frame, or a
   frame with the same key came later.
   */
  lemma SwallowExact(
    cfg: Config, steps: seq<Step>, i: nat, strict: bool, clock: nat -> Stamp, options: Options)
    requires Sane(cfg.w) && i < |Exec(cfg, steps).clients|
    ensures
      var s := Exec(cfg, steps);
      var c := s.clients[i];
      && c.joined <= |s.log| <= |s.sent|
      && (MirrorOf(cfg.w.codec, strict, c.received, clock, options).entities ==
          TableOf(cfg.w, Between(s.sent, c.joined, |s.log|))
          <==>
          || c.greeting == [] || c.greeting == Banner(cfg)
          || c.joined == |s.log|
          || s.sent[c.joined].msg.Notice?
          || Repeated(cfg, s, c.joined))
  {
    hide Exec, MirrorOf, TableOf, RowOf, HeardAs, Banner, CountFrames, TailOf, HeardFrames, Carries, KeyOf, SoundMessage,
      ProducersInv, LineMessage;
    DrainedTable(cfg, steps, i, strict, clock, options);
    RunKeepsInv(cfg, steps);
    var s := Exec(cfg, steps);
    var c := s.clients[i];
    var ms := Between(s.sent, c.joined, |s.log|);
    if FirstHeard(cfg, c) != c.joined && c.joined < |s.log| {
      assert Between(s.sent, c.joined + 1, |s.log|) == ms[1..];
      assert ms[0] == s.sent[c.joined].msg;
      MessageReadingQuiet(cfg.w, ms[0]);
      FirstRowMatters(cfg.w, ms);
      RepeatedIsLater(cfg, s, c.joined);
    }
  }

  lemma RepeatedIsLater(cfg: Config, s: State, a: nat)
    requires a < |s.log| <= |s.sent|
    ensures
      var ms := Between(s.sent, a, |s.log|);
      Repeated(cfg, s, a) <==> exists k, key :: 0 < k < |ms| && Carries(cfg.w, ms[0], key) && Carries(cfg.w, ms[k], key)
  {
    hide Carries;
    var ms := Between(s.sent, a, |s.log|);
    if j: nat, key :| a < j && Broadcasts(cfg, s, a, key) && Broadcasts(cfg, s, j, key) {
      assert ms[j - a] == s.sent[j].msg;
      assert Carries(cfg.w, ms[0], key) && Carries(cfg.w, ms[j - a], key);
    }
    if k, key :| 0 < k < |ms| && Carries(cfg.w, ms[0], key) && Carries(cfg.w, ms[k], key) {
      assert Broadcasts(cfg, s, a, key) && Broadcasts(cfg, s, a + k, key);
    }
  }

  /** One byte of the banner, then one frame. */
  function SwallowingRun(f: Frame, now: Stamp): seq<Step> {
    [Greet(Failed(1)), Push, Watch(f, now), Broadcast([Written])]
  }

  lemma StepsOf(cfg: Config, a: Step, b: Step, c: Step, d: Step)
    ensures Exec(cfg, [a, b, c, d]) == Next(cfg, Next(cfg, Next(cfg, Next(cfg, INITIAL, a), b), c), d)
  {
    hide Next;
    assert [a, b, c, d][..3] == [a, b, c] && [a, b, c][..2] == [a, b] && [a, b][..1] == [a] && [a][..0] == [];
    assert Exec(cfg, []) == INITIAL;
    assert Exec(cfg, [a]) == Next(cfg, INITIAL, a);
    assert Exec(cfg, [a, b]) == Next(cfg, Exec(cfg, [a]), b);
    assert Exec(cfg, [a, b, c]) == Next(cfg, Exec(cfg, [a, b]), c);
  }

  lemma SwallowingState(cfg: Config, f: Frame, now: Stamp)
    requires Sane(cfg.w) && cfg.banner && OneLineFrame(f) && Formattable(cfg.w.codec, Stamped(f, now))
    ensures
      var s, m, g := Exec(cfg, SwallowingRun(f, now)), FrameOut(f, now), Banner(cfg)[..1];
      && s.clients == [Client(0, g, g + Wire(cfg.w, m))]
      && s.log == [Wire(cfg.w, m)] && s.sent == [Sent(None, m)]
  {
    hide Exec, Banner, OneLineFrame, Formattable, Wire, Survivors, Casualties;
    StepsOf(cfg, Greet(Failed(1)), Push, Watch(f, now), Broadcast([Written]));
    GreetingCut(cfg);
    var g := Banner(cfg)[..1];
    var s1 := INITIAL.(greeted := Some(g));
    assert Next(cfg, INITIAL, Greet(Failed(1))) == s1;
    var s2 := s1.(greeted := None, clients := [Client(0, g, g)]);
    assert Next(cfg, s1, Push) == s2;
    var m := FrameOut(f, now);
    var s3 := s2.(sent := [Sent(None, m)], queue := [Wire(cfg.w, m)]);
    assert Next(cfg, s2, Watch(f, now)) == s3;
    OneSurvivor(Client(0, g, g), Wire(cfg.w, m));
  }

  /** It happens, to any frame: the mirror of this run never shows the one frame that was broadcast. */
  lemma SwallowHappens(cfg: Config, f: Frame, now: Stamp, strict: bool, clock: nat -> Stamp, options: Options)
    requires Sane(cfg.w) && cfg.banner && OneLineFrame(f) && Formattable(cfg.w.codec, Stamped(f, now))
    ensures
      var s := Exec(cfg, SwallowingRun(f, now));
      && |s.clients| == 1 && s.clients[0].joined == 0 && |s.log| == 1 <= |s.sent|
      && MirrorOf(cfg.w.codec, strict, s.clients[0].received, clock, options).entities !=
         TableOf(cfg.w, Between(s.sent, 0, |s.log|))
  {
    hide Exec, MirrorOf, TableOf, Banner, OneLineFrame, Formattable, Wire, Carries, Sane, SwallowingRun;
    SwallowingState(cfg, f, now);
    GreetingCut(cfg);
    SwallowExact(cfg, SwallowingRun(f, now), 0, strict, clock, options);
  }

  lemma OneSurvivor(c: Client, m: Utf8.bytes)
    ensures Survivors([c], m, [Written]) == [c.(received := c.received + m)]
    ensures Casualties([c], m, [Written]) == []
  {
    assert [c][..0] == [] && [Written][..0] == [];
  }

  lemma GreetingCut(cfg: Config)
    requires cfg.banner
    ensures |Banner(cfg)| > 1 && Arrived(Banner(cfg), Failed(1)) == Banner(cfg)[..1]
  {
    BannerAscii();
    Utf8.EncodeAscii(BANNER_TEXT + "\n", 0);
  }

  /**
   Late joiners converge: two live, drained mirrors of one spine, however configured, agree on
   every key that the one which heard less has a row for.
   */
  lemma LateJoinersConverge(
    cfg: Config, steps: seq<Step>, early: nat, late: nat,
    strict1: bool, clock1: nat -> Stamp, options1: Options,
    strict2: bool, clock2: nat -> Stamp, options2: Options,
    key: string)
    requires Sane(cfg.w)
    requires early < |Exec(cfg, steps).clients| && late < |Exec(cfg, steps).clients|
    requires FirstHeard(cfg, Exec(cfg, steps).clients[early]) <= FirstHeard(cfg, Exec(cfg, steps).clients[late])
    requires key in MirrorOf(cfg.w.codec, strict2, Exec(cfg, steps).clients[late].received, clock2, options2).entities
    ensures
      var s := Exec(cfg, steps);
      var v1 := MirrorOf(cfg.w.codec, strict1, s.clients[early].received, clock1, options1);
      var v2 := MirrorOf(cfg.w.codec, strict2, s.clients[late].received, clock2, options2);
      key in v1.entities && v1.entities[key] == v2.entities[key]
  {
    hide Exec, MirrorOf, RowOf, Banner;
    DrainedTable(cfg, steps, early, strict1, clock1, options1);
    DrainedTable(cfg, steps, late, strict2, clock2, options2);
    var s := Exec(cfg, steps);
    var j := RowToBroadcast(cfg, s, s.clients[late], key);
    BroadcastToRow(cfg, s, s.clients[late], j, key);
    BroadcastToRow(cfg, s, s.clients[early], j, key);
  }

  /**
   What a row says of the line it came from: for a frame accepted on stdin or an ingest socket,
   every field as accepted, the bag less the lost entry, and the stamp that the spine put on it; for
   a receipt, all but its bag. A watcher's frame keeps its columns if they are clean, and its bag too
   if that is. In general each field is what the columns of the printed line say, and the bag of a frame
   with a tab-free head is what prints before its first tab.
   */
  lemma RowContent(cfg: Config, steps: seq<Step>, j: nat)
    requires Sane(cfg.w) && j < |Exec(cfg, steps).sent|
    requires Exec(cfg, steps).sent[j].msg.FrameOut?
    ensures
      var sent := Exec(cfg, steps).sent[j];
      var m := sent.msg;
      && HeardAs(cfg.w, m).Accepted?
      && var row := RowOf(cfg.w, m);
      && row.lastSeen == (if m.frame.ts.Some? then m.frame.ts.value else m.now)
      && (sent.from.Some? ==> CleanFrame(m.frame) || IsReceipt(m.frame))
      && (CleanHead(m.frame) || IsReceipt(m.frame) ==>
            && row.scope == m.frame.scope && row.id == m.frame.id && row.kind == m.frame.kind
            && row.lastLevel == m.frame.level && row.lastMsg == m.frame.msg)
      && (CleanFrame(m.frame) ==> row.kv == DropLost(m.frame.kv))
      && (TabFreeHead(m.frame) ==> row.kv == KvOf(UpToTab(KvText(m.frame.kv))))
      && var cols := PrintedColumns(m.frame);
      && row.kind == Trim(cols[0]) && row.scope == Trim(cols[1]) && row.id == Trim(cols[2])
      && row.lastLevel == ParseLevel(cols[3]) && row.lastMsg == Trim(cols[4]) && row.kv == KvOf(cols[5])
  {
    hide Exec, ProducersInv, ClientsInv, Parse, ToTsvLine, IsReceipt, Wires, PrintedColumns, KvOf, KvText, UpToTab, Trim, ParseLevel;
    RunKeepsInv(cfg, steps);
    var sent := Exec(cfg, steps).sent[j];
    RowOfMessage(cfg.w, sent.msg);
    RowOfColumns(cfg.w, sent.msg);
  }

  lemma RowOfColumns(w: World, m: Message)
    requires Sane(w) && SoundMessage(w, m) && m.FrameOut?
    ensures HeardAs(w, m).Accepted?
    ensures
      var row, cols := RowOf(w, m), PrintedColumns(m.frame);
      && row.kind == Trim(cols[0]) && row.scope == Trim(cols[1]) && row.id == Trim(cols[2])
      && row.lastLevel == ParseLevel(cols[3]) && row.lastMsg == Trim(cols[4]) && row.kv == KvOf(cols[5])
    ensures TabFreeHead(m.frame) ==> RowOf(w, m).kv == KvOf(UpToTab(KvText(m.frame.kv)))
  {
    hide Parse, ToTsvLine, PrintedColumns, KvOf, KvText, UpToTab, Trim, ParseLevel, OneLineFrame, TabFreeHead;
    RereadColumns(w.codec, m.frame, m.now);
    if TabFreeHead(m.frame) {
      TabFreeColumns(m.frame);
    }
  }

  lemma RowOfMessage(w: World, m: Message)
    requires Sane(w) && SoundMessage(w, m) && m.FrameOut?
    ensures HeardAs(w, m).Accepted?
    ensures RowOf(w, m).lastSeen == if m.frame.ts.Some? then m.frame.ts.value else m.now
    ensures CleanHead(m.frame) || IsReceipt(m.frame) ==>
      var row := RowOf(w, m);
      && row.scope == m.frame.scope && row.id == m.frame.id && row.kind == m.frame.kind
      && row.lastLevel == m.frame.level && row.lastMsg == m.frame.msg
    ensures CleanFrame(m.frame) ==> RowOf(w, m).kv == DropLost(m.frame.kv)
  {
    hide Parse, ToTsvLine, CleanHead, CleanBag;
    MessageHeard(w, m);
    if CleanHead(m.frame) || IsReceipt(m.frame) {
      assert CleanHead(m.frame);
      HeadRoundTrip(w.codec, m.frame, m.now);
    }
  }
}

/**
 A mirror with `--transform thread:fail_only` on the socket of a hawkd: what its table holds, in terms of
 what hawkd broadcast.
 */
module FilteredSpine {
  import opened Basics
  import opened KvBag
  import opened HawkFrame
  import Utf8
  import opened Framing
  import opened Producers
  import Clients
  import opened Spine
  import opened Entities
  import opened Mirror
  import opened Reader
  import opened Merge
  import opened Bridge
  import opened Awk
  import opened FailOnly
  import opened EndToEnd
  import opened MirrorRefinement
  import opened Pipeline

  /** The row that a message leaves behind the thread: one more hop takes the lost entry. */
  function HopRow(w: World, m: Message): Entity
    requires HeardAs(w, m).Accepted? && m.FrameOut?
  {
    RowOf(w, m).(kv := DropLost(RowOf(w, m).kv))
  }

  /** The message carries a frame for `key` that the thread is asked to let through. */
  ghost predicate CarriesWanted(w: World, scope: string, m: Message, key: string) {
    Carries(w, m, key) && Wanted(scope, HeardAs(w, m).frame)
  }

  /** The table that the wanted messages leave. */
  ghost function WantedTable(w: World, scope: string, ms: seq<Message>): map<string, Entity> {
    if ms == [] then map[]
    else
      var n := |ms| - 1;
      if ms[n].FrameOut? && HeardAs(w, ms[n]).Accepted? && Wanted(scope, HeardAs(w, ms[n]).frame)
      then WantedTable(w, scope, ms[..n])[KeyOf(HeardAs(w, ms[n]).frame) := HopRow(w, ms[n])]
      else WantedTable(w, scope, ms[..n])
  }

  lemma {:induction false} LastWantedRow(w: World, scope: string, ms: seq<Message>, j: nat, key: string)
    requires j < |ms| && CarriesWanted(w, scope, ms[j], key)
    requires forall k :: j < k < |ms| ==> !CarriesWanted(w, scope, ms[k], key)
    ensures key in WantedTable(w, scope, ms) && WantedTable(w, scope, ms)[key] == HopRow(w, ms[j])
  {
    hide HeardAs, HopRow, Wanted;
    var n := |ms| - 1;
    if j < n {
      LastWantedRow(w, scope, ms[..n], j, key);
    }
  }

  lemma {:induction false} WantedRowOrigin(w: World, scope: string, ms: seq<Message>, key: string) returns (j: nat)
    requires key in WantedTable(w, scope, ms)
    ensures j < |ms| && CarriesWanted(w, scope, ms[j], key)
    ensures forall k :: j < k < |ms| ==> !CarriesWanted(w, scope, ms[k], key)
  {
    hide HeardAs, HopRow, Wanted;
    var n := |ms| - 1;
    if CarriesWanted(w, scope, ms[n], key) {
      j := n;
    } else {
      j := WantedRowOrigin(w, scope, ms[..n], key);
    }
  }

  // ----- What the bridge gets from the socket

  lemma {:induction false} OnlyFramesIn(frames: seq<Frame>)
    ensures FramesIn(FrameMsgs(frames)) == frames && ErrorsIn(FrameMsgs(frames)) == []
  {
    if frames != [] {
      var n := |frames| - 1;
      OnlyFramesIn(frames[..n]);
      assert FrameMsgs(frames)[..n] == FrameMsgs(frames[..n]);
    }
  }

  /** A live client's readings, whatever its strict flag, are the frames of the broadcasts it heard. */
  lemma SocketFrames(cfg: Config, steps: seq<Step>, i: nat, strict: bool)
    requires Sane(cfg.w) && i < |Exec(cfg, steps).clients|
    ensures
      var s := Exec(cfg, steps);
      var c := s.clients[i];
      && |s.log| <= |s.sent|
      && var heard := Between(s.sent, HeardFrom(cfg, s, c), |s.log|);
      && AllSound(cfg.w, heard)
      && Deliver(strict, ReadingsOf(cfg.w.codec, c.received)) == FrameMsgs(HeardFrames(cfg.w, heard))
  {
    hide Exec, ProducersInv, Banner, Wire, SoundMessage, LineMessage, ReadingsOf, MessageReadings, FramesHeard, Deliver, HeardFrames,
      FrameMsgs;
    RunKeepsInv(cfg, steps);
    var s := Exec(cfg, steps);
    var c := s.clients[i];
    assert |s.log + s.queue| == |s.sent|;
    var ms := Between(s.sent, c.joined, |s.log|);
    LogIsWires(cfg.w, s, c.joined, |s.log|);
    assert s.log[c.joined..|s.log|] == s.log[c.joined..];
    var pre := ConnectionReadings(cfg, c.greeting, ms);
    var heard := ms[Swallowed(cfg, c.greeting, ms)..];
    assert heard == Between(s.sent, HeardFrom(cfg, s, c), |s.log|);
    QuietReadings(cfg.w, pre, heard);
    DeliverQuiet(strict, pre + MessageReadings(cfg.w, heard));
  }

  /** Filtering the frames heard and filing them is filing the wanted messages. */
  lemma {:induction false} FilteredTable(w: World, scope: string, ms: seq<Message>, clocks: seq<Stamp>)
    requires Sane(w) && AllSound(w, ms) && |clocks| == |HeardFrames(w, ms)|
    ensures Table(FileAs(Filter(scope, NormalAll(HeardFrames(w, ms), clocks)))) == WantedTable(w, scope, ms)
  {
    hide HeardAs, SoundMessage, Filter, FileAs, Table, NormalAll, Wanted, HopRow, KeyOf;
    if ms == [] {
      NothingFiled(scope, clocks);
    } else {
      var n := |ms| - 1;
      MessageReadingQuiet(w, ms[n]);
      var before := HeardFrames(w, ms[..n]);
      if ms[n].FrameOut? {
        var f, k := HeardAs(w, ms[n]).frame, |before|;
        FilteredTable(w, scope, ms[..n], clocks[..k]);
        assert HeardFrames(w, ms) == before + [f];
        FiledOneMore(scope, before, f, clocks);
        HopRowIs(w, ms[n], clocks[k]);
      } else {
        assert HeardFrames(w, ms) == before;
        FilteredTable(w, scope, ms[..n], clocks);
      }
    }
  }

  lemma NothingFiled(scope: string, clocks: seq<Stamp>)
    requires clocks == []
    ensures Table(FileAs(Filter(scope, NormalAll([], clocks)))) == map[]
  {
  }

  lemma HopRowIs(w: World, m: Message, now: Stamp)
    requires m.FrameOut? && HeardAs(w, m).Accepted? && HeardAs(w, m).frame.ts == Some(Stamped(m.frame, m.now))
    ensures
      var f := HeardAs(w, m).frame;
      && HopRow(w, m) == EntityOf(Normal(f, now), Stamped(f, now))
      && KeyOf(Normal(f, now)) == KeyOf(f)
  {
    hide HeardAs;
  }

  lemma FiledOneMore(scope: string, before: seq<Frame>, f: Frame, clocks: seq<Stamp>)
    requires |clocks| == |before| + 1 && f.ts.Some?
    ensures
      var k := |before|;
      var g := Normal(f, clocks[k]);
      var table := Table(FileAs(Filter(scope, NormalAll(before, clocks[..k]))));
      Table(FileAs(Filter(scope, NormalAll(before + [f], clocks)))) ==
      if Wanted(scope, f) then table[KeyOf(g) := EntityOf(g, Stamped(f, clocks[k]))] else table
  {
    hide Filter, FileAs, Table, KeyOf;
    var k := |before|;
    var all, g := NormalAll(before + [f], clocks), Normal(f, clocks[k]);
    assert all[..k] == NormalAll(before, clocks[..k]) && all[k] == g;
    FilterStep(scope, all, k);
    FileOneMore(Filter(scope, all[..k]), g);
  }

  lemma FileOneMore(frames: seq<Frame>, g: Frame)
    requires g.ts.Some?
    ensures Table(FileAs(frames + [g])) == Table(FileAs(frames))[KeyOf(g) := EntityOf(g, g.ts.value)]
  {
    hide KeyOf, EntityOf;
    assert FileAs(frames + [g])[..|frames|] == FileAs(frames);
  }

  // ----- The theorem

  /** The j-th broadcast of a run carries a wanted frame for `key`. */
  ghost predicate BroadcastsWanted(cfg: Config, s: State, scope: string, j: nat, key: string) {
    j < |s.log| <= |s.sent| && CarriesWanted(cfg.w, scope, s.sent[j].msg, key)
  }

  ghost predicate LastWanted(cfg: Config, s: State, scope: string, j: nat, key: string) {
    BroadcastsWanted(cfg, s, scope, j, key) && forall k :: j < k < |s.log| ==> !BroadcastsWanted(cfg, s, scope, k, key)
  }

  /** Every frame was pushed to awk and every line of its output was read. */
  predicate AllPushed(pushes: seq<Push>) {
    forall i :: 0 <= i < |pushes| ==> pushes[i].Pushed?
  }

  lemma AllPushedWhole(codec: TimeCodec, scope: string, frames: seq<Frame>, clocks: seq<Stamp>, pushes: seq<Push>)
    requires |clocks| == |frames| == |pushes| && AllPushed(pushes)
    ensures FirstFailure(pushes) == WholeLines(pushes) == |pushes| && Passed(codec, scope, frames, clocks, pushes) == []
  {
    FirstFailureIsFirst(pushes);
  }

  /** The table of a filtered mirror that has read everything. */
  lemma FilteredSocket(
    cfg: Config, steps: seq<Step>, i: nat, d: Dialect, tvar: string, strict: bool, clocks: seq<Stamp>, pushes: seq<Push>,
    readFailed: bool, exitFailed: bool, awkErrors: seq<IngestMsg>, merged: seq<IngestMsg>, uiClock: nat -> Stamp, options: Options)
    requires Sane(cfg.w) && i < |Exec(cfg, steps).clients|
    requires Standard(d) && '\\' !in tvar && (tvar == "" || Number(tvar).None?)
    requires forall j :: 0 <= j < |clocks| ==> Formattable(cfg.w.codec, clocks[j])
    requires AllPushed(pushes) && AllIoErrors(awkErrors)
    requires
      var msgs := Deliver(strict, ReadingsOf(cfg.w.codec, Exec(cfg, steps).clients[i].received));
      && |pushes| == |clocks| == |FramesIn(msgs)|
      && var parsed := ParseAll(cfg.w.codec, Kept(d.escapes(tvar), Printed(cfg.w.codec, FramesIn(msgs), clocks)));
      && |awkErrors| == Complaints(pushes, Errors(parsed), readFailed, exitFailed)
      && Interleaves(merged, ErrorsIn(msgs), FrameMsgs(Frames(parsed)), awkErrors)
    ensures
      var s := Exec(cfg, steps);
      var c := s.clients[i];
      && |s.log| <= |s.sent|
      && IngestAll(cfg.w.codec, Fresh(options), merged, uiClock).entities ==
         WantedTable(cfg.w, tvar, Between(s.sent, HeardFrom(cfg, s, c), |s.log|))
  {
    hide Exec, ReadingsOf, Deliver, FramesIn, ErrorsIn, FrameMsgs, Frames, ParseAll, Errors, Kept, Printed, Interleaves, IngestAll,
      WantedTable, HeardFrames, Number, Filter, NormalAll, Table, FileAs, AllIoErrors, Complaints, Records, Newest, Compact,
      CountParseErrors, CountIoErrors, Sane, AllPushed, Banner;
    var s := Exec(cfg, steps);
    var c, codec := s.clients[i], cfg.w.codec;
    SocketFrames(cfg, steps, i, strict);
    var heard := Between(s.sent, HeardFrom(cfg, s, c), |s.log|);
    var frames := HeardFrames(cfg.w, heard);
    OnlyFramesIn(frames);
    var items := SocketItems(c.received, false);
    ReadingsAreItems(codec, c.received);
    SourceItemsAreOneLine(c.received, false);
    AllPushedWhole(codec, tvar, frames, clocks, pushes);
    WholeRecords(codec, frames, clocks, pushes);
    var out := Kept(d.escapes(tvar), Printed(codec, frames, clocks));
    assert out[..|out|] == out;
    SaneIsLawful(cfg.w);
    FilteredMirror(
      codec, d, tvar, strict, items, clocks, pushes, |out|, readFailed, exitFailed, awkErrors, merged, uiClock, options);
    assert frames[..|pushes|] == frames && clocks[..|pushes|] == clocks;
    ForwardedWhole(codec, d, tvar, frames, clocks, pushes, strict, items);
    FilteredTable(cfg.w, tvar, heard, clocks);
  }

  lemma SaneIsLawful(w: World)
    requires Sane(w)
    ensures Lawful(w.codec)
  {
  }

  lemma ReadingsAreItems(codec: TimeCodec, received: Utf8.bytes)
    ensures Readings(codec, SocketItems(received, false)) == ReadingsOf(codec, received)
  {
  }

  lemma WholeRecords(codec: TimeCodec, frames: seq<Frame>, clocks: seq<Stamp>, pushes: seq<Push>)
    requires |clocks| == |frames| == |pushes| && AllPushed(pushes)
    ensures Records(codec, frames, clocks, pushes) == Printed(codec, frames, clocks)
  {
    hide ToTsvLine;
    AllPushedWhole(codec, "", frames, clocks, pushes);
    assert frames[..|pushes|] == frames && clocks[..|pushes|] == clocks;
    assert Printed(codec, frames, clocks) + [] == Printed(codec, frames, clocks);
  }

  /** With everything pushed and read, what is forwarded is exactly what is wanted. */
  lemma ForwardedWhole(
    codec: TimeCodec, d: Dialect, tvar: string, frames: seq<Frame>, clocks: seq<Stamp>, pushes: seq<Push>, strict: bool,
    items: seq<Item>)
    requires Lawful(codec) && Standard(d) && '\\' !in tvar && (tvar == "" || Number(tvar).None?)
    requires |clocks| == |frames| == |pushes| && frames == FramesIn(Deliver(strict, Readings(codec, items)))
    requires forall j :: 0 <= j < |items| ==> OneLineItem(items[j])
    requires forall j :: 0 <= j < |clocks| ==> Formattable(codec, clocks[j])
    ensures
      var out, wanted := Kept(d.escapes(tvar), Printed(codec, frames, clocks)), Filter(tvar, NormalAll(frames, clocks));
      Forwarded(wanted, [], |out|) == wanted
  {
    hide Kept, Printed, Filter, NormalAll, Number, Deliver, Readings, FramesIn, Printable, ParseAll, Frames, Errors, OneLineItem;
    SourceIsPrintable(codec, strict, items, clocks);
    BridgeFilters(codec, d, tvar, frames, clocks, |Kept(d.escapes(tvar), Printed(codec, frames, clocks))|);
    var wanted := Filter(tvar, NormalAll(frames, clocks));
    assert wanted[..|wanted|] == wanted;
  }

  /**
   A mirror with `fail_only` on a hawkd socket, in every run: once it has read everything, it has a row for
   a key exactly if a wanted frame for that key (of level warn or fail, in the chosen scope) was broadcast
   since it joined, and the row is that of the last such frame, however the threads interleaved and
   whatever clocks the mirror and the bridge have.
   */
  lemma FilteredMirrorHoldsLastFrames(
    cfg: Config, steps: seq<Step>, i: nat, d: Dialect, tvar: string, strict: bool, clocks: seq<Stamp>, pushes: seq<Push>,
    readFailed: bool, exitFailed: bool, awkErrors: seq<IngestMsg>, merged: seq<IngestMsg>, uiClock: nat -> Stamp, options: Options)
    requires Sane(cfg.w) && i < |Exec(cfg, steps).clients|
    requires Standard(d) && '\\' !in tvar && (tvar == "" || Number(tvar).None?)
    requires forall j :: 0 <= j < |clocks| ==> Formattable(cfg.w.codec, clocks[j])
    requires AllPushed(pushes) && AllIoErrors(awkErrors)
    requires
      var msgs := Deliver(strict, ReadingsOf(cfg.w.codec, Exec(cfg, steps).clients[i].received));
      && |pushes| == |clocks| == |FramesIn(msgs)|
      && var parsed := ParseAll(cfg.w.codec, Kept(d.escapes(tvar), Printed(cfg.w.codec, FramesIn(msgs), clocks)));
      && |awkErrors| == Complaints(pushes, Errors(parsed), readFailed, exitFailed)
      && Interleaves(merged, ErrorsIn(msgs), FrameMsgs(Frames(parsed)), awkErrors)
    ensures
      var s := Exec(cfg, steps);
      var from := FirstHeard(cfg, s.clients[i]);
      var v := IngestAll(cfg.w.codec, Fresh(options), merged, uiClock);
      && (forall key :: key in v.entities <==> exists j: nat :: from <= j && BroadcastsWanted(cfg, s, tvar, j, key))
      && (forall key, j: nat :: from <= j && LastWanted(cfg, s, tvar, j, key) ==>
            key in v.entities && v.entities[key] == HopRow(cfg.w, s.sent[j].msg))
  {
    hide Exec, ReadingsOf, Deliver, FramesIn, ErrorsIn, FrameMsgs, Frames, ParseAll, Errors, Kept, Printed, Interleaves, IngestAll,
      WantedTable, Number, AllIoErrors, Complaints, Sane, AllPushed, Banner, HopRow, HeardAs, Wanted;
    FilteredSocket(
      cfg, steps, i, d, tvar, strict, clocks, pushes, readFailed, exitFailed, awkErrors, merged, uiClock, options);
    var s := Exec(cfg, steps);
    var c := s.clients[i];
    var from := FirstHeard(cfg, c);
    var v := IngestAll(cfg.w.codec, Fresh(options), merged, uiClock);
    forall key ensures key in v.entities <==> exists j: nat :: from <= j && BroadcastsWanted(cfg, s, tvar, j, key) {
      if key in v.entities {
        var j := WantedToBroadcast(cfg, s, c, tvar, key);
      }
      if j: nat :| from <= j && BroadcastsWanted(cfg, s, tvar, j, key) {
        var last := LastWantedAtOrAfter(cfg, s, tvar, j, key);
        WantedToRow(cfg, s, c, tvar, last, key);
      }
    }
    forall key, j: nat | from <= j && LastWanted(cfg, s, tvar, j, key)
      ensures key in v.entities && v.entities[key] == HopRow(cfg.w, s.sent[j].msg)
    {
      WantedToRow(cfg, s, c, tvar, j, key);
    }
  }

  lemma WantedToRow(cfg: Config, s: State, c: Clients.Client, scope: string, j: nat, key: string)
    requires |s.log| <= |s.sent|
    requires FirstHeard(cfg, c) <= j && LastWanted(cfg, s, scope, j, key)
    ensures
      var t := WantedTable(cfg.w, scope, Between(s.sent, HeardFrom(cfg, s, c), |s.log|));
      key in t && t[key] == HopRow(cfg.w, s.sent[j].msg)
  {
    hide WantedTable, HopRow, CarriesWanted, Banner;
    var from := HeardFrom(cfg, s, c);
    var ms := Between(s.sent, from, |s.log|);
    assert ms[j - from] == s.sent[j].msg;
    forall k | j - from < k < |ms| ensures !CarriesWanted(cfg.w, scope, ms[k], key) {
      assert !BroadcastsWanted(cfg, s, scope, from + k, key);
    }
    LastWantedRow(cfg.w, scope, ms, j - from, key);
  }

  lemma WantedToBroadcast(cfg: Config, s: State, c: Clients.Client, scope: string, key: string) returns (j: nat)
    requires |s.log| <= |s.sent|
    requires key in WantedTable(cfg.w, scope, Between(s.sent, HeardFrom(cfg, s, c), |s.log|))
    ensures FirstHeard(cfg, c) <= j && LastWanted(cfg, s, scope, j, key)
  {
    hide WantedTable, HopRow, CarriesWanted, Banner;
    var from := HeardFrom(cfg, s, c);
    var ms := Between(s.sent, from, |s.log|);
    var i := WantedRowOrigin(cfg.w, scope, ms, key);
    j := from + i;
    forall k | j < k < |s.log| ensures !BroadcastsWanted(cfg, s, scope, k, key) {
      assert ms[k - from] == s.sent[k].msg;
    }
  }

  lemma {:induction false} LastWantedAtOrAfter(cfg: Config, s: State, scope: string, j: nat, key: string) returns (last: nat)
    requires BroadcastsWanted(cfg, s, scope, j, key)
    ensures j <= last && LastWanted(cfg, s, scope, last, key)
    decreases |s.log| - j
  {
    hide CarriesWanted;
    if k: nat :| j < k && BroadcastsWanted(cfg, s, scope, k, key) {
      last := LastWantedAtOrAfter(cfg, s, scope, k, key);
    } else {
      last := j;
    }
  }
}

/**
 A mirror with `--transform thread:fail_only` from its source to its state: the readers of
 crates/hawk/src/io.rs, the wiring of crates/hawk/src/main.rs:185-215, the bridge of
 crates/hawk/src/awk.rs and the thread packs/hawk.core/fail_only.awk.
 */
module Pipeline {
  import opened Text
  import opened Severity
  import opened KvBag
  import opened HawkFrame
  import opened Cuts
  import opened Utf8
  import opened Framing
  import opened Producers
  import opened Mirror
  import opened Reader
  import opened Merge
  import opened Bridge
  import opened Awk
  import opened FailOnly

  /** The frames among the source's messages, which go to awk. */
  function FramesIn(msgs: seq<IngestMsg>): seq<Frame> {
    if msgs == [] then []
    else
      var last := msgs[|msgs| - 1];
      FramesIn(msgs[..|msgs| - 1]) + if last.FrameMsg? then [last.frame] else []
  }

  /** The rest, which goes straight to the UI channel. */
  function ErrorsIn(msgs: seq<IngestMsg>): (errors: seq<IngestMsg>)
    ensures AllErrors(errors)
  {
    if msgs == [] then []
    else
      var last := msgs[|msgs| - 1];
      ErrorsIn(msgs[..|msgs| - 1]) + if last.FrameMsg? then [] else [last]
  }

  lemma {:induction false} ErrorsCounted(msgs: seq<IngestMsg>)
    ensures CountParseErrors(ErrorsIn(msgs)) == CountParseErrors(msgs)
    ensures CountIoErrors(ErrorsIn(msgs)) == CountIoErrors(msgs)
  {
    if msgs != [] {
      var n := |msgs| - 1;
      ErrorsCounted(msgs[..n]);
      var before := ErrorsIn(msgs[..n]);
      assert (before + [msgs[n]])[..|before|] == before;
      assert before + [] == before;
    }
  }

  lemma {:induction false} FramesInMember(msgs: seq<IngestMsg>, i: nat)
    requires i < |FramesIn(msgs)|
    ensures FrameMsg(FramesIn(msgs)[i]) in msgs
  {
    var n := |msgs| - 1;
    if i < |FramesIn(msgs[..n])| {
      FramesInMember(msgs[..n], i);
    }
  }

  lemma {:induction false} DeliveredWasHeard(strict: bool, readings: seq<Reading>, f: Frame)
    requires FrameMsg(f) in Deliver(strict, readings)
    ensures exists i :: 0 <= i < |readings| && readings[i] == Heard(Accepted(f))
  {
    if FrameMsg(f) in MsgsOf(readings[0]) {
      assert readings[0] == Heard(Accepted(f));
    } else {
      DeliveredWasHeard(strict, readings[1..], f);
      var i :| 0 <= i < |readings[1..]| && readings[1..][i] == Heard(Accepted(f));
      assert readings[i + 1] == Heard(Accepted(f));
    }
  }

  lemma SourceItemsAreOneLine(b: bytes, eof: bool)
    ensures forall i :: 0 <= i < |SocketItems(b, eof)| ==> OneLineItem(SocketItems(b, eof)[i])
    ensures forall i :: 0 <= i < |StdinItems(b, eof)| ==> OneLineItem(StdinItems(b, eof)[i])
  {
    hide SocketItems, StdinItems, TrimEol;
    ItemsAreOneLine(b, eof);
    forall i | 0 <= i < |SocketItems(b, eof)| ensures OneLineItem(SocketItems(b, eof)[i]) {
      EolTrimmed(SocketItems(b, eof)[i]);
    }
    forall i | 0 <= i < |StdinItems(b, eof)| ensures OneLineItem(StdinItems(b, eof)[i]) {
      EolTrimmed(StdinItems(b, eof)[i]);
    }
  }

  /** What the source hands to the bridge is fit to be printed. */
  lemma SourceIsPrintable(codec: TimeCodec, strict: bool, items: seq<Item>, clocks: seq<Stamp>)
    requires Lawful(codec) && |clocks| == |FramesIn(Deliver(strict, Readings(codec, items)))|
    requires forall i :: 0 <= i < |items| ==> OneLineItem(items[i])
    requires forall i :: 0 <= i < |clocks| ==> Formattable(codec, clocks[i])
    ensures Printable(codec, FramesIn(Deliver(strict, Readings(codec, items))), clocks)
  {
    hide Parse, CleanFrame, Deliver, OneLineFrame, TrimEol;
    var readings := Readings(codec, items);
    var msgs := Deliver(strict, readings);
    var frames := FramesIn(msgs);
    forall i | 0 <= i < |frames|
      ensures CleanFrame(frames[i]) && OneLineFrame(frames[i]) && Formattable(codec, Stamped(frames[i], clocks[i]))
    {
      FramesInMember(msgs, i);
      DeliveredWasHeard(strict, readings, frames[i]);
      var j :| 0 <= j < |readings| && readings[j] == Heard(Accepted(frames[i]));
      assert OneLineItem(items[j]);
      ParsedIsClean(codec, items[j].text);
      ParsedIsOneLine(codec, items[j].text);
    }
  }

  // ----- What comes back from awk

  /**
   What awk takes for a record when its input ends without a newline. Bytes that are not UTF-8 are left
   out: whatever awk does with them, they cannot come back as a line.
   */
  function TornRecord(torn: bytes): seq<string> {
    match Decode(torn)
    case None => []
    case Some(text) => if text == "" then [] else [text]
  }

  /** The records that awk sees: the whole lines, and what came of one more. */
  function Records(codec: TimeCodec, frames: seq<Frame>, clocks: seq<Stamp>, pushes: seq<Push>): seq<string>
    requires |clocks| == |frames| == |pushes|
  {
    var k := WholeLines(pushes);
    Printed(codec, frames[..k], clocks[..k]) + TornRecord(Torn(codec, frames, clocks, pushes))
  }

  /**
   The frame, if any, as which a torn record comes back: the wanted frame that was cut, with the bag read
   from what is there of it, if the tab before the bag is there.
   */
  function PassedAs(codec: TimeCodec, scope: string, f: Frame, now: Stamp, torn: bytes): seq<Frame> {
    var head := HeadText(codec, f, now);
    match Decode(torn)
    case None => []
    case Some(text) =>
      if head <= text && Wanted(scope, f) then [Normal(f, now).(kv := KvOf(text[|head|..]))] else []
  }

  function Passed(codec: TimeCodec, scope: string, frames: seq<Frame>, clocks: seq<Stamp>, pushes: seq<Push>): seq<Frame>
    requires |clocks| == |frames| == |pushes|
  {
    var k := FirstFailure(pushes);
    if k == |pushes| then [] else PassedAs(codec, scope, frames[k], clocks[k], Torn(codec, frames, clocks, pushes))
  }

  /** The first `r` wanted frames; when every line was read, also what a torn record passed as. */
  function Forwarded(wanted: seq<Frame>, passed: seq<Frame>, r: nat): seq<Frame> {
    if r <= |wanted| then wanted[..r] else wanted + passed
  }

  lemma PrintablePrefix(codec: TimeCodec, frames: seq<Frame>, clocks: seq<Stamp>, k: nat)
    requires k <= |frames| == |clocks| && Printable(codec, frames, clocks)
    ensures Printable(codec, frames[..k], clocks[..k])
  {
  }

  /** The scope and level of a torn record are whole if the tab before the bag is there. */
  lemma TornFields(codec: TimeCodec, f: Frame, now: Stamp, tail: string)
    requires Lawful(codec) && CleanHead(f) && Formattable(codec, Stamped(f, now))
    ensures
      var text := HeadText(codec, f, now) + tail;
      Field(text, 3) == f.scope && Field(text, 5) == f.level.AsStr()
  {
    hide KvText, Split;
    var head := Columns(codec, f, Stamped(f, now))[..6];
    assert TabFreeHead(f);
    HeadIsTabFree(codec, f, Stamped(f, now));
    SplitJoin(head, '\t');
    SplitConcat(Join(head, '\t'), tail, '\t');
  }

  /** What the thread and the parser make of a torn record, exactly. */
  lemma TornRecordPasses(codec: TimeCodec, scope: string, f: Frame, now: Stamp, torn: bytes)
    requires Lawful(codec) && CleanFrame(f) && Formattable(codec, Stamped(f, now))
    requires scope == "" || Number(scope).None?
    requires torn <= Encode(ToTsvLine(codec, f, now))
    ensures
      var parsed := ParseAll(codec, Kept(scope, TornRecord(torn)));
      && Frames(parsed) == PassedAs(codec, scope, f, now, torn)
      && |Frames(parsed)| + Errors(parsed) == |parsed|
  {
    hide Parse, ToTsvLine, Encode, Decode, Keeps, HeadText, KvOf, Number, Wanted, CleanBag;
    if Decode(torn).Some? && Decode(torn).value != "" {
      var text, head := Decode(torn).value, HeadText(codec, f, now);
      EncodeDecode(torn);
      EncodePrefix(text, ToTsvLine(codec, f, now));
      OneRecord(codec, scope, text);
      PieceIsNotIgnored(codec, f, now, text);
      TornPieceExact(codec, f, now, text);
      if head <= text {
        TornRecordFrame(codec, scope, f, now, text);
      }
    } else {
      HeadNotEmpty(codec, f, now);
    }
  }

  lemma HeadNotEmpty(codec: TimeCodec, f: Frame, now: Stamp)
    ensures HeadText(codec, f, now) != ""
  {
  }

  lemma TornRecordFrame(codec: TimeCodec, scope: string, f: Frame, now: Stamp, text: string)
    requires Lawful(codec) && CleanFrame(f) && Formattable(codec, Stamped(f, now))
    requires scope == "" || Number(scope).None?
    requires text <= ToTsvLine(codec, f, now) && HeadText(codec, f, now) <= text
    ensures
      var tail := text[|HeadText(codec, f, now)|..];
      && Parse(codec, text) == Accepted(Normal(f, now).(kv := KvOf(tail)))
      && (Keeps(scope, text) <==> Wanted(scope, f))
  {
    hide Parse, ToTsvLine, HeadText, KvOf, Number, CleanBag, Field, UpToTab, KvText;
    var head := HeadText(codec, f, now);
    var tail := text[|head|..];
    assert text == head + tail;
    TextParts(codec, f, now);
    KvTextKeepsOut(f.kv, '\t');
    assert tail <= KvText(f.kv);
    UpToTabWhole(tail);
    TornPieceExact(codec, f, now, text);
    CleanRoundTrip(codec, f, now);
    TornFields(codec, f, now, tail);
    LevelWord(f.level);
  }

  lemma PieceIsNotIgnored(codec: TimeCodec, f: Frame, now: Stamp, text: string)
    requires Lawful(codec) && Formattable(codec, Stamped(f, now)) && text != "" && text <= ToTsvLine(codec, f, now)
    ensures !Parse(codec, text).Ignored?
  {
    hide ToTsvLine, Trim, FrameOf, Split;
    PrintOpens(codec, f, now);
    assert text[0] == ToTsvLine(codec, f, now)[0];
    assert IsSpace('\n') && IsSpace('\r');
    TrimEolKeepsHead(text);
    var line := TrimEol(text);
    TrimBlank(line);
    assert TrimStart(line) == line;
  }

  lemma OneRecord(codec: TimeCodec, scope: string, text: string)
    ensures
      var parsed, p := ParseAll(codec, Kept(scope, [text])), Parse(codec, text);
      && |parsed| == (if Keeps(scope, text) then 1 else 0)
      && Frames(parsed) == (if Keeps(scope, text) && p.Accepted? then [p.frame] else [])
      && Errors(parsed) == (if Keeps(scope, text) && p.Rejected? then 1 else 0)
  {
    hide Keeps, Parse;
    KeptStep(scope, [text], 0);
    assert [text][..0] == [] && [] + [text] == [text];
    NothingParsed(codec);
    ParseAllAppend(codec, [], text);
    FramesAppend(ParseAll(codec, []), Parse(codec, text));
  }

  lemma KeptRecords(scope: string, lines: seq<string>, torn: bytes)
    ensures Kept(scope, lines + TornRecord(torn)) == Kept(scope, lines) + Kept(scope, TornRecord(torn))
    ensures |Kept(scope, TornRecord(torn))| <= 1
  {
    hide Keeps, Decode;
    var record := TornRecord(torn);
    if record == [] {
      assert lines + [] == lines;
    } else {
      KeptStep(scope, lines + record, |lines|);
      KeptStep(scope, record, 0);
      assert (lines + record)[..|lines|] == lines && record[..0] == [];
    }
  }

  lemma {:induction false} FramesConcat(a: seq<Parsed>, b: seq<Parsed>)
    ensures Frames(a + b) == Frames(a) + Frames(b) && Errors(a + b) == Errors(a) + Errors(b)
  {
    if b == [] {
      assert a + b == a;
    } else {
      var n := |b| - 1;
      assert (a + b)[..|a + b| - 1] == a + b[..n];
      FramesConcat(a, b[..n]);
    }
  }

  lemma ParseAllConcat(codec: TimeCodec, a: seq<string>, b: seq<string>)
    ensures ParseAll(codec, a + b) == ParseAll(codec, a) + ParseAll(codec, b)
  {
    hide Parse;
  }

  lemma TornIsPiece(codec: TimeCodec, frames: seq<Frame>, clocks: seq<Stamp>, pushes: seq<Push>)
    requires |clocks| == |frames| == |pushes|
    ensures
      var k, torn := FirstFailure(pushes), Torn(codec, frames, clocks, pushes);
      if k == |pushes| then torn == [] else torn <= Encode(ToTsvLine(codec, frames[k], clocks[k]))
  {
    hide ToTsvLine, Encode;
  }

  /** Both ends of the bridge: the torn record, in terms of the frames. */
  lemma TornOfBridge(codec: TimeCodec, scope: string, frames: seq<Frame>, clocks: seq<Stamp>, pushes: seq<Push>)
    requires Lawful(codec) && |clocks| == |frames| == |pushes| && Printable(codec, frames, clocks)
    requires scope == "" || Number(scope).None?
    ensures
      var parsed := ParseAll(codec, Kept(scope, TornRecord(Torn(codec, frames, clocks, pushes))));
      && Frames(parsed) == Passed(codec, scope, frames, clocks, pushes)
      && |Frames(parsed)| + Errors(parsed) == |parsed|
  {
    hide Parse, ToTsvLine, Encode, Kept, PassedAs, CleanFrame, OneLineFrame, Number, Torn, Formattable;
    var k, torn := FirstFailure(pushes), Torn(codec, frames, clocks, pushes);
    TornIsPiece(codec, frames, clocks, pushes);
    if k < |pushes| {
      TornRecordPasses(codec, scope, frames[k], clocks[k], torn);
    } else {
      NothingKept(codec, scope);
    }
  }

  lemma NothingKept(codec: TimeCodec, scope: string)
    ensures ParseAll(codec, Kept(scope, TornRecord([]))) == []
  {
  }

  /**
   However the writer and the reader end: what the reader forwards of the first `r` lines that awk prints,
   and how many of them it complains about.
   */
  lemma BridgeForwards(
    codec: TimeCodec, d: Dialect, tvar: string, frames: seq<Frame>, clocks: seq<Stamp>, pushes: seq<Push>, r: nat)
    requires Lawful(codec) && Standard(d) && '\\' !in tvar && (tvar == "" || Number(tvar).None?)
    requires |clocks| == |frames| == |pushes| && Printable(codec, frames, clocks)
    requires r <= |Kept(d.escapes(tvar), Records(codec, frames, clocks, pushes))|
    ensures
      var k := WholeLines(pushes);
      var wanted, passed := Filter(tvar, NormalAll(frames[..k], clocks[..k])), Passed(codec, tvar, frames, clocks, pushes);
      var parsed := ParseAll(codec, Kept(d.escapes(tvar), Records(codec, frames, clocks, pushes))[..r]);
      && Frames(parsed) == Forwarded(wanted, passed, r)
      && Errors(parsed) == if r > |wanted| && passed == [] then 1 else 0
  {
    hide Parse, Kept, Filter, Printed, NormalAll, Printable, Number, ParseAll, Frames, Errors, Torn, TornRecord, Passed, WholeLines;
    var k, torn := WholeLines(pushes), Torn(codec, frames, clocks, pushes);
    PrintablePrefix(codec, frames, clocks, k);
    var lines := Printed(codec, frames[..k], clocks[..k]);
    var kept, last := Kept(tvar, lines), Kept(tvar, TornRecord(torn));
    KeptRecords(tvar, lines, torn);
    TornOfBridge(codec, tvar, frames, clocks, pushes);
    var m := if r <= |kept| then r else |kept|;
    BridgeFilters(codec, d, tvar, frames[..k], clocks[..k], m);
    if r <= |kept| {
      assert (kept + last)[..r] == kept[..r];
    } else {
      assert (kept + last)[..r] == kept + last && kept[..m] == kept;
      ParseAllConcat(codec, kept, last);
      FramesConcat(ParseAll(codec, kept), ParseAll(codec, last));
      ParseAllSize(codec, last);
    }
  }

  lemma ParseAllSize(codec: TimeCodec, lines: seq<string>)
    ensures |ParseAll(codec, lines)| == |lines|
  {
  }

  /** Each frame filed under its own stamp. */
  function FileAs(frames: seq<Frame>): seq<Filed> {
    seq(|frames|, i requires 0 <= i < |frames| => Filed(frames[i], Stamped(frames[i], Stamp(0, 0))))
  }

  lemma {:induction false} FilteredAreStamped(scope: string, frames: seq<Frame>, i: nat)
    requires forall j :: 0 <= j < |frames| ==> frames[j].ts.Some?
    requires i < |Filter(scope, frames)|
    ensures Filter(scope, frames)[i].ts.Some?
  {
    hide Wanted;
    var n := |frames| - 1;
    if i < |Filter(scope, frames[..n])| {
      FilteredAreStamped(scope, frames[..n], i);
    }
  }

  lemma FiledAreStamped(filed: seq<Filed>, frames: seq<Frame>)
    requires FiledFrom(filed, FrameMsgs(frames))
    requires forall i :: 0 <= i < |frames| ==> frames[i].ts.Some?
    ensures filed == FileAs(frames)
  {
    forall i | 0 <= i < |frames| ensures filed[i] == FileAs(frames)[i] {
      assert FrameMsgs(frames)[i] == FrameMsg(frames[i]);
    }
  }

  lemma FrameMsgsAreFrames(frames: seq<Frame>)
    ensures AllFrames(FrameMsgs(frames))
  {
  }

  lemma ForwardedAreStamped(
    codec: TimeCodec, scope: string, frames: seq<Frame>, clocks: seq<Stamp>, pushes: seq<Push>, r: nat)
    requires |clocks| == |frames| == |pushes|
    ensures
      var k := WholeLines(pushes);
      var heard := Forwarded(
        Filter(scope, NormalAll(frames[..k], clocks[..k])), Passed(codec, scope, frames, clocks, pushes), r);
      forall i :: 0 <= i < |heard| ==> heard[i].ts.Some?
  {
    hide Filter, NormalAll, Torn, HeadText, Decode, KvOf;
    var k := WholeLines(pushes);
    var normal := NormalAll(frames[..k], clocks[..k]);
    var wanted := Filter(scope, normal);
    AllStamped(frames[..k], clocks[..k]);
    forall i | 0 <= i < |wanted| ensures wanted[i].ts.Some? {
      FilteredAreStamped(scope, normal, i);
    }
  }

  /** Everything that the bridge's three threads complain about. */
  function Complaints(pushes: seq<Push>, refused: nat, readFailed: bool, exitFailed: bool): nat {
    (if FirstFailure(pushes) < |pushes| then 1 else 0) + refused +
    (if readFailed then 1 else 0) + (if exitFailed then 1 else 0)
  }

  /** The UI gets each complaint as an I/O error. */
  predicate AllIoErrors(msgs: seq<IngestMsg>) {
    forall i :: 0 <= i < |msgs| ==> msgs[i].IoErrorMsg?
  }

  lemma {:induction false} IoErrorsCounted(msgs: seq<IngestMsg>)
    requires AllIoErrors(msgs)
    ensures AllErrors(msgs) && CountIoErrors(msgs) == |msgs| && CountParseErrors(msgs) == 0
  {
    if msgs != [] {
      IoErrorsCounted(msgs[..|msgs| - 1]);
    }
  }

  /**
   The filtered mirror. Whatever the source reads, strict or not, wherever the writer fails, however
   many lines of awk's output are read before its reader fails, and however the three threads that feed
   the UI channel interleave: the mirror ends with a row, and a line in the tail, for exactly the frames
   of level warn or fail in the chosen scope among those that reached awk, in source order, each as one
   print-and-parse leaves it and under its own stamp, up to the last line read; and it has counted every
   error of the source and every complaint of the bridge.
   */
  lemma FilteredMirror(
    codec: TimeCodec, d: Dialect, tvar: string, strict: bool, items: seq<Item>, clocks: seq<Stamp>, pushes: seq<Push>,
    r: nat, readFailed: bool, exitFailed: bool, awkErrors: seq<IngestMsg>, merged: seq<IngestMsg>, uiClock: nat -> Stamp,
    options: Options)
    requires Lawful(codec) && Standard(d) && '\\' !in tvar && (tvar == "" || Number(tvar).None?)
    requires forall i :: 0 <= i < |items| ==> OneLineItem(items[i])
    requires |pushes| == |clocks| == |FramesIn(Deliver(strict, Readings(codec, items)))|
    requires forall i :: 0 <= i < |clocks| ==> Formattable(codec, clocks[i])
    requires
      var msgs := Deliver(strict, Readings(codec, items));
      var out := Kept(d.escapes(tvar), Records(codec, FramesIn(msgs), clocks, pushes));
      && r <= |out|
      && var parsed := ParseAll(codec, out[..r]);
      && AllIoErrors(awkErrors) && |awkErrors| == Complaints(pushes, Errors(parsed), readFailed, exitFailed)
      && Interleaves(merged, ErrorsIn(msgs), FrameMsgs(Frames(parsed)), awkErrors)
    ensures
      var msgs := Deliver(strict, Readings(codec, items));
      var frames, k := FramesIn(msgs), WholeLines(pushes);
      var wanted, passed := Filter(tvar, NormalAll(frames[..k], clocks[..k])), Passed(codec, tvar, frames, clocks, pushes);
      var heard := Forwarded(wanted, passed, r);
      var v := IngestAll(codec, Fresh(options), merged, uiClock);
      && v.entities == Table(FileAs(heard))
      && v.framesSeen == |heard|
      && v.tail == Newest(Compact(codec, FileAs(heard)), options.tailSize)
      && v.parseErrors == CountParseErrors(msgs)
      && v.ioErrors == CountIoErrors(msgs) +
                       Complaints(pushes, if r > |wanted| && passed == [] then 1 else 0, readFailed, exitFailed)
  {
    hide Parse, Deliver, Readings, FramesIn, ErrorsIn, Kept, Printed, Printable, Interleaves, Filter, NormalAll,
      Table, Compact, Newest, CountParseErrors, CountIoErrors, FiledFrames, OnlyFrames, IngestAll, AllErrors, AllFrames,
      FileAs, FiledFrom, Frames, ParseAll, Errors, FrameMsgs, Records, Torn, Passed, Forwarded, WholeLines, OneLineItem,
      Number, Complaints, AllIoErrors;
    var msgs := Deliver(strict, Readings(codec, items));
    var frames, k := FramesIn(msgs), WholeLines(pushes);
    SourceIsPrintable(codec, strict, items, clocks);
    BridgeForwards(codec, d, tvar, frames, clocks, pushes, r);
    ForwardedAreStamped(codec, tvar, frames, clocks, pushes, r);
    var wanted, passed := Filter(tvar, NormalAll(frames[..k], clocks[..k])), Passed(codec, tvar, frames, clocks, pushes);
    var heard := Forwarded(wanted, passed, r);
    FrameMsgsAreFrames(heard);
    IoErrorsCounted(awkErrors);
    FramesOfMerge(merged, ErrorsIn(msgs), FrameMsgs(heard), awkErrors);
    FiledOfMerge(merged, uiClock);
    FiledAreStamped(FiledFrames(merged, uiClock), heard);
    FileAsSize(heard);
    ErrorsCounted(msgs);
    IngestAllShape(codec, options, merged, uiClock);
  }

  lemma AllStamped(frames: seq<Frame>, clocks: seq<Stamp>)
    requires |clocks| == |frames|
    ensures forall j :: 0 <= j < |NormalAll(frames, clocks)| ==> NormalAll(frames, clocks)[j].ts.Some?
  {
  }

  lemma FileAsSize(frames: seq<Frame>)
    ensures |FileAs(frames)| == |frames|
  {
  }
}

/** The assumptions on the environment can be met. */
module Assumptions {
  import opened Basics
  import opened Decimal
  import opened HawkFrame
  import opened Producers

  function ShowStamp(t: Stamp): Option<string> {
    if t.nanos >= 0 && t.offsetS == 0 then Some(Digits(t.nanos)) else None
  }

  function ReadStamp(s: string): Option<Stamp> {
    match ParseDigits(s)
    case Some(n) => Some(Stamp(n, 0))
    case None => None
  }

  function Plain(e: ParseError): string {
    "refused"
  }

  /** Even a codec that writes plain nanoseconds satisfies what is asked of RFC 3339. */
  lemma SaneWorldExists()
    ensures Sane(World(TimeCodec(ReadStamp, ShowStamp), Plain))
  {
    forall t | ShowStamp(t).Some?
      ensures StampText(ShowStamp(t).value) && ReadStamp(ShowStamp(t).value) == Some(t)
    {
      ValueDigits(t.nanos);
      var s := Digits(t.nanos);
      assert forall i :: 0 <= i < |s| ==> IsDigit(s[i]);
      assert IsDigit(s[0]);
    }
  }
}

/** The line readers of the mirror (crates/hawk/src/io.rs). */
module Reader {
  import opened HawkFrame
  import opened Framing
  import opened Mirror

  /** What one turn of a reading loop got: a parse result, or a read error. */
  datatype Reading = Heard(parsed: Parsed) | ReadError

  function ReadingOf(codec: TimeCodec, item: Item): Reading {
    match item
    case Line(text) => Heard(Parse(codec, text))
    case Unreadable => ReadError
  }

  function Readings(codec: TimeCodec, items: seq<Item>): seq<Reading> {
    seq(|items|, i requires 0 <= i < |items| => ReadingOf(codec, items[i]))
  }

  function MsgsOf(r: Reading): seq<IngestMsg> {
    match r
    case ReadError => [IoErrorMsg("read failed")]
    case Heard(Accepted(f)) => [FrameMsg(f)]
    case Heard(Ignored) => []
    case Heard(Rejected(e)) => [ParseErrorMsg(e)]
  }

  /** A read error ends the loop, and in strict mode a parse error too. */
  predicate Ends(strict: bool, r: Reading) {
    r.ReadError? || (strict && r.parsed.Rejected?)
  }

  /** Frames and errors in reading order. */
  function Deliver(strict: bool, readings: seq<Reading>): seq<IngestMsg> {
    if readings == [] then []
    else if Ends(strict, readings[0]) then MsgsOf(readings[0])
    else MsgsOf(readings[0]) + Deliver(strict, readings[1..])
  }

  /** A loop that has sent `msgs` before reading `i` has sent its messages after it. */
  lemma DeliverStep(strict: bool, readings: seq<Reading>, i: nat, msgs: seq<IngestMsg>)
    requires i < |readings| && Deliver(strict, readings) == msgs + Deliver(strict, readings[i..])
    ensures Deliver(strict, readings) ==
            if Ends(strict, readings[i]) then msgs + MsgsOf(readings[i])
            else (msgs + MsgsOf(readings[i])) + Deliver(strict, readings[i + 1..])
  {
    hide MsgsOf, Ends;
    var rest := readings[i..];
    assert rest[0] == readings[i] && rest[1..] == readings[i + 1..];
    if !Ends(strict, readings[i]) {
      assert msgs + (MsgsOf(readings[i]) + Deliver(strict, readings[i + 1..])) ==
             (msgs + MsgsOf(readings[i])) + Deliver(strict, readings[i + 1..]);
    }
  }

  lemma DeliverDone(strict: bool, readings: seq<Reading>, msgs: seq<IngestMsg>)
    requires Deliver(strict, readings) == msgs + Deliver(strict, readings[|readings|..])
    ensures Deliver(strict, readings) == msgs
  {
  }

  /** The loop shared by `spawn_stdin_reader` and `spawn_unix_reader`. */
  method ReadLoop(codec: TimeCodec, strict: bool, items: seq<Item>) returns (msgs: seq<IngestMsg>)
    ensures msgs == Deliver(strict, Readings(codec, items))
  {
    hide Parse, Deliver;
    msgs := [];
    ghost var readings := Readings(codec, items);
    assert readings[0..] == readings;
    var i := 0;
    while i < |items|
      invariant 0 <= i <= |items|
      invariant Deliver(strict, readings) == msgs + Deliver(strict, readings[i..])
    {
      assert readings[i] == ReadingOf(codec, items[i]);
      DeliverStep(strict, readings, i, msgs);
      match items[i] {
        case Line(line) =>
          match Parse(codec, line) {
            case Accepted(f) => msgs := msgs + [FrameMsg(f)];
            case Ignored => assert msgs + [] == msgs;
            case Rejected(e) =>
              msgs := msgs + [ParseErrorMsg(e)];
              if strict {
                return;
              }
          }
        case Unreadable =>
          msgs := msgs + [IoErrorMsg("read failed")];
          return;
      }
      i := i + 1;
    }
    DeliverDone(strict, readings, msgs);
  }

  /** `spawn_unix_reader`: a failed connect is one error and the end. */
  method UnixReader(codec: TimeCodec, connected: bool, strict: bool, items: seq<Item>) returns (msgs: seq<IngestMsg>)
    ensures connected ==> msgs == Deliver(strict, Readings(codec, items))
    ensures !connected ==> msgs == [IoErrorMsg("connect failed")]
  {
    if !connected {
      return [IoErrorMsg("connect failed")];
    }
    msgs := ReadLoop(codec, strict, items);
  }

  /** A reading that makes no noise: a frame or an ignored line. */
  predicate Quiet(r: Reading) {
    r.Heard? && !r.parsed.Rejected?
  }

  function FramesHeard(readings: seq<Reading>): seq<Frame> {
    if readings == [] then []
    else
      (match readings[0]
       case Heard(Accepted(f)) => [f]
       case _ => []) + FramesHeard(readings[1..])
  }

  function FrameMsgs(frames: seq<Frame>): seq<IngestMsg> {
    seq(|frames|, i requires 0 <= i < |frames| => FrameMsg(frames[i]))
  }

  /** Without errors, strict mode makes no difference and only the frames come through. */
  lemma {:induction false} DeliverQuiet(strict: bool, readings: seq<Reading>)
    requires forall i :: 0 <= i < |readings| ==> Quiet(readings[i])
    ensures Deliver(strict, readings) == FrameMsgs(FramesHeard(readings))
  {
    if readings != [] {
      DeliverQuiet(strict, readings[1..]);
      var rest := FramesHeard(readings[1..]);
      if readings[0].parsed.Accepted? {
        assert FrameMsgs([readings[0].parsed.frame] + rest) == [FrameMsg(readings[0].parsed.frame)] + FrameMsgs(rest);
      } else {
        assert [] + rest == rest;
      }
    }
  }

  lemma {:induction false} FiledFrameMsgs(frames: seq<Frame>, clock: nat -> Stamp)
    requires forall i :: 0 <= i < |frames| ==> frames[i].ts.Some?
    ensures |FiledFrames(FrameMsgs(frames), clock)| == |frames|
    ensures forall i :: 0 <= i < |frames| ==> FiledFrames(FrameMsgs(frames), clock)[i] == Filed(frames[i], frames[i].ts.value)
  {
    if frames != [] {
      var n := |frames| - 1;
      FiledFrameMsgs(frames[..n], clock);
      assert FrameMsgs(frames)[..n] == FrameMsgs(frames[..n]);
    }
  }

  lemma {:induction false} FrameMsgsHaveNoErrors(frames: seq<Frame>)
    ensures CountParseErrors(FrameMsgs(frames)) == 0 && CountIoErrors(FrameMsgs(frames)) == 0
  {
    if frames != [] {
      var n := |frames| - 1;
      FrameMsgsHaveNoErrors(frames[..n]);
      assert FrameMsgs(frames)[..n] == FrameMsgs(frames[..n]);
    }
  }

  /** The first reading of the kind, or the end. */
  function FirstError(readings: seq<Reading>): (k: nat)
    ensures k <= |readings|
    ensures forall i :: 0 <= i < k ==> readings[i].Heard?
    ensures k < |readings| ==> readings[k].ReadError?
  {
    if readings == [] || readings[0].ReadError? then 0 else 1 + FirstError(readings[1..])
  }

  function FirstRefused(readings: seq<Reading>): (k: nat)
    ensures k <= |readings|
    ensures forall i :: 0 <= i < k ==> !(readings[i].Heard? && readings[i].parsed.Rejected?)
    ensures k < |readings| ==> readings[k].Heard? && readings[k].parsed.Rejected?
  {
    if readings == [] || (readings[0].Heard? && readings[0].parsed.Rejected?) then 0 else 1 + FirstRefused(readings[1..])
  }

  /** The messages of all readings, one after the other. */
  function AllMsgs(readings: seq<Reading>): seq<IngestMsg> {
    if readings == [] then [] else MsgsOf(readings[0]) + AllMsgs(readings[1..])
  }

  /** Each reading that is not ignored becomes one message: a frame, a parse error or an I/O error. */
  lemma OneMessageEach(r: Reading)
    ensures r.ReadError? ==> |MsgsOf(r)| == 1 && MsgsOf(r)[0].IoErrorMsg?
    ensures r.Heard? && r.parsed.Accepted? ==> MsgsOf(r) == [FrameMsg(r.parsed.frame)]
    ensures r.Heard? && r.parsed.Rejected? ==> MsgsOf(r) == [ParseErrorMsg(r.parsed.error)]
    ensures r.Heard? && r.parsed.Ignored? ==> MsgsOf(r) == []
  {
  }

  /** Lenient reading delivers the messages of all readings up to and including the first read error. */
  lemma {:induction false} LenientExact(readings: seq<Reading>)
    ensures
      var e := FirstError(readings);
      Deliver(false, readings) == AllMsgs(if e < |readings| then readings[..e + 1] else readings)
  {
    hide MsgsOf;
    if readings != [] {
      var r, rest := readings[0], readings[1..];
      if r.ReadError? {
        assert readings[..1] == [r];
        AllMsgsOne(r);
      } else {
        LenientExact(rest);
        var e, e' := FirstError(readings), FirstError(rest);
        var upTo := if e < |readings| then readings[..e + 1] else readings;
        assert upTo[0] == r && upTo[1..] == if e' < |rest| then rest[..e' + 1] else rest;
      }
    }
  }

  /** Strict reading is lenient reading up to and including the first refused line. */
  lemma {:induction false} StrictExact(readings: seq<Reading>)
    ensures
      var k := FirstRefused(readings);
      Deliver(true, readings) == Deliver(false, if k < |readings| then readings[..k + 1] else readings)
  {
    hide MsgsOf;
    if readings != [] {
      var r, rest := readings[0], readings[1..];
      var k, k' := FirstRefused(readings), FirstRefused(rest);
      var short := if k < |readings| then readings[..k + 1] else readings;
      assert short[0] == r;
      if r.ReadError? {
        StopsHere(readings, short);
      } else if r.parsed.Rejected? {
        assert short == [r] && [r][1..] == [];
        assert MsgsOf(r) + [] == MsgsOf(r);
      } else {
        StrictExact(rest);
        assert short[1..] == if k' < |rest| then rest[..k' + 1] else rest;
      }
    }
  }

  lemma AllMsgsOne(r: Reading)
    ensures AllMsgs([r]) == MsgsOf(r)
  {
    assert [r][1..] == [];
    assert MsgsOf(r) + [] == MsgsOf(r);
  }

  lemma StopsHere(readings: seq<Reading>, short: seq<Reading>)
    requires readings != [] && short != [] && short[0] == readings[0] && readings[0].ReadError?
    ensures Deliver(true, readings) == Deliver(false, short) == MsgsOf(readings[0])
  {
    hide MsgsOf;
  }

  /** So strict reading is a prefix of lenient reading, and the same if no line is refused. */
  lemma {:induction false} StrictReadsPrefix(readings: seq<Reading>)
    ensures Deliver(true, readings) <= Deliver(false, readings)
    ensures (forall i :: 0 <= i < |readings| ==> !(readings[i].Heard? && readings[i].parsed.Rejected?)) ==>
              Deliver(true, readings) == Deliver(false, readings)
  {
    hide MsgsOf;
    if readings != [] {
      StrictReadsPrefix(readings[1..]);
    }
  }
}

/**
 The mirror's state (crates/hawk/src/app.rs): entity table, bounded tail and counters. The clock
 that `ingest_frame` reads is an argument.
 */
module Mirror {
  import opened HawkFrame
  import opened Entities
  import opened Ordering
  import Board

  datatype IngestMsg =
    | FrameMsg(frame: Frame)
    | ParseErrorMsg(error: ParseError)
    | IoErrorMsg(text: string)

  datatype View = View(
    tail: seq<string>, tailSize: nat,
    framesSeen: nat, parseErrors: nat, ioErrors: nat,
    entities: map<string, Entity>,
    staleS: int, deadS: int)

  /** The options a mirror is started with. */
  datatype Options = Options(tailSize: nat, staleS: int, deadS: int)

  function Fresh(options: Options): View {
    View([], options.tailSize, 0, 0, 0, map[], options.staleS, options.deadS)
  }

  function KeyOf(f: Frame): string {
    f.scope + ":" + f.id
  }

  function EntityOf(f: Frame, now: Stamp): Entity {
    Entity(f.scope, f.id, f.level, f.msg, Stamped(f, now), f.kind, f.kv)
  }

  function Newest(lines: seq<string>, n: nat): seq<string> {
    if n < |lines| then lines[..n] else lines
  }

  function Ingested(codec: TimeCodec, v: View, msg: IngestMsg, now: Stamp): View {
    match msg
    case FrameMsg(f) =>
      v.(framesSeen := v.framesSeen + 1,
         entities := v.entities[KeyOf(f) := EntityOf(f, now)],
         tail := Newest([ToCompactLine(codec, f)] + v.tail, v.tailSize))
    case ParseErrorMsg(_) => v.(parseErrors := v.parseErrors + 1)
    case IoErrorMsg(_) => v.(ioErrors := v.ioErrors + 1)
  }

  /** The rows in the key order of the table. */
  function Rows(entities: map<string, Entity>): (rows: seq<Entity>)
    ensures |rows| == |entities|
  {
    var keys := SortedKeys(entities.Keys);
    assert forall i :: 0 <= i < |keys| ==> keys[i] in keys;
    seq(|keys|, i requires 0 <= i < |keys| => entities[keys[i]])
  }

  class App {
    var tail: seq<string>
    var tailSize: nat
    var framesSeen: nat
    var parseErrors: nat
    var ioErrors: nat
    var entities: map<string, Entity>
    var staleS: int
    var deadS: int

    function Now(): View
      reads this
    {
      View(tail, tailSize, framesSeen, parseErrors, ioErrors, entities, staleS, deadS)
    }

    constructor (tailSize: nat, staleS: int, deadS: int)
      ensures Now() == Fresh(Options(tailSize, staleS, deadS))
    {
      this.tail, this.tailSize := [], tailSize;
      framesSeen, parseErrors, ioErrors := 0, 0, 0;
      entities := map[];
      this.staleS, this.deadS := staleS, deadS;
    }

    method Ingest(codec: TimeCodec, msg: IngestMsg, now: Stamp)
      modifies this
      ensures Now() == Ingested(codec, old(Now()), msg, now)
    {
      match msg {
        case FrameMsg(f) => IngestFrame(codec, f, now);
        case ParseErrorMsg(_) => parseErrors := parseErrors + 1;
        case IoErrorMsg(_) => ioErrors := ioErrors + 1;
      }
    }

    method IngestFrame(codec: TimeCodec, f: Frame, now: Stamp)
      modifies this
      ensures Now() == Ingested(codec, old(Now()), FrameMsg(f), now)
    {
      framesSeen := framesSeen + 1;
      var compact := ToCompactLine(codec, f);
      var seen := f.ts.UnwrapOr(now);
      var key := f.scope + ":" + f.id;
      var st := Entity(f.scope, f.id, f.level, f.msg, seen, f.kind, f.kv);
      entities := entities[key := st];
      PushTail(compact);
    }

    method PushTail(line: string)
      modifies this
      ensures Now() == old(Now()).(tail := Newest([line] + old(tail), old(tailSize)))
    {
      tail := [line] + tail;
      while |tail| > tailSize
        invariant tail <= [line] + old(tail)
        invariant |tail| >= tailSize || tail == [line] + old(tail)
        invariant Now() == old(Now()).(tail := tail)
      {
        tail := tail[..|tail| - 1];
      }
    }

    /** `counts_by_state` at the instant `now`. */
    method CountsByState(now: Stamp) returns (total: nat, ok: nat, warn: nat, fail: nat, stale: nat, dead: nat)
      ensures
        var lens := Lens(now, staleS, deadS);
        var rows := Rows(entities);
        && total == |entities|
        && Board.Tallied(lens, rows, ok, warn, fail, stale, dead)
        && ok == Board.Count(lens, rows, Board.OkBucket)
        && warn == Board.Count(lens, rows, Board.WarnBucket)
        && fail == Board.Count(lens, rows, Board.FailBucket)
        && stale == Board.Count(lens, rows, Board.StaleBucket)
        && dead == Board.Count(lens, rows, Board.DeadBucket)
      ensures ok + warn + fail + stale + dead == total
    {
      hide LivenessOf, Rows, Board.Count, Board.Tallied;
      var lens := Lens(now, staleS, deadS);
      ok, warn, fail, stale, dead := 0, 0, 0, 0, 0;
      var rows := Rows(entities);
      Board.CountNothing(lens, rows);
      for i := 0 to |rows|
        invariant ok == Board.Count(lens, rows[..i], Board.OkBucket)
        invariant warn == Board.Count(lens, rows[..i], Board.WarnBucket)
        invariant fail == Board.Count(lens, rows[..i], Board.FailBucket)
        invariant stale == Board.Count(lens, rows[..i], Board.StaleBucket)
        invariant dead == Board.Count(lens, rows[..i], Board.DeadBucket)
      {
        Board.CountStep(lens, rows, i, Board.OkBucket);
        Board.CountStep(lens, rows, i, Board.WarnBucket);
        Board.CountStep(lens, rows, i, Board.FailBucket);
        Board.CountStep(lens, rows, i, Board.StaleBucket);
        Board.CountStep(lens, rows, i, Board.DeadBucket);
        match LivenessOf(lens, rows[i]) {
          case Stale => stale := stale + 1;
          case Dead => dead := dead + 1;
          case _ =>
            match rows[i].lastLevel {
              case Fail => fail := fail + 1;
              case Warn => warn := warn + 1;
              case _ => ok := ok + 1;
            }
        }
      }
      assert rows[..|rows|] == rows;
      Board.BucketsPartition(lens, rows);
      Board.CountsAreTallied(lens, rows);
      total := |entities|;
    }

    /** `sorted_entities` at the instant `now`. */
    method SortedEntities(now: Stamp) returns (v: seq<Entity>)
      ensures Board.IsStableSort(Lens(now, staleS, deadS), Rows(entities), v)
    {
      hide Board.IsStableSort, Rows;
      v := [];
      var rows := Rows(entities);
      for i := 0 to |rows|
        invariant v == rows[..i]
      {
        v := v + [rows[i]];
      }
      assert v == rows;
      v := Board.StableSort(Lens(now, staleS, deadS), v);
      Board.StableSortIsStable(Lens(now, staleS, deadS), rows);
    }
  }

  /** The messages of a channel ingested in order; `clock(i)` is read while taking the i-th. */
  function IngestAll(codec: TimeCodec, v: View, msgs: seq<IngestMsg>, clock: nat -> Stamp): View {
    if msgs == [] then v
    else
      var n := |msgs| - 1;
      Ingested(codec, IngestAll(codec, v, msgs[..n], clock), msgs[n], clock(n))
  }

  /** A frame together with the instant it is filed under. */
  datatype Filed = Filed(frame: Frame, seen: Stamp)

  function FiledFrames(msgs: seq<IngestMsg>, clock: nat -> Stamp): seq<Filed> {
    if msgs == [] then []
    else
      var n := |msgs| - 1;
      FiledFrames(msgs[..n], clock) +
      match msgs[n]
      case FrameMsg(f) => [Filed(f, Stamped(f, clock(n)))]
      case _ => []
  }

  function CountParseErrors(msgs: seq<IngestMsg>): nat {
    if msgs == [] then 0
    else CountParseErrors(msgs[..|msgs| - 1]) + if msgs[|msgs| - 1].ParseErrorMsg? then 1 else 0
  }

  function CountIoErrors(msgs: seq<IngestMsg>): nat {
    if msgs == [] then 0
    else CountIoErrors(msgs[..|msgs| - 1]) + if msgs[|msgs| - 1].IoErrorMsg? then 1 else 0
  }

  /** The table that a sequence of frames leaves behind. */
  function Table(frames: seq<Filed>): map<string, Entity> {
    if frames == [] then map[]
    else
      var last := frames[|frames| - 1];
      Table(frames[..|frames| - 1])[KeyOf(last.frame) := EntityOf(last.frame, last.seen)]
  }

  /** Compact lines, newest first. */
  function Compact(codec: TimeCodec, frames: seq<Filed>): seq<string> {
    seq(|frames|, i requires 0 <= i < |frames| => ToCompactLine(codec, frames[|frames| - 1 - i].frame))
  }

  lemma CompactStep(codec: TimeCodec, frames: seq<Filed>, last: Filed)
    ensures Compact(codec, frames + [last]) == [ToCompactLine(codec, last.frame)] + Compact(codec, frames)
  {
    hide ToCompactLine;
  }

  lemma NewestAgain(line: string, lines: seq<string>, n: nat)
    ensures Newest([line] + Newest(lines, n), n) == Newest([line] + lines, n)
  {
  }

  /** What a mirror shows of these frames and this many errors. */
  function FramesView(codec: TimeCodec, options: Options, frames: seq<Filed>, parseErrors: nat, ioErrors: nat): View {
    View(Newest(Compact(codec, frames), options.tailSize), options.tailSize,
         |frames|, parseErrors, ioErrors, Table(frames), options.staleS, options.deadS)
  }

  /**
   What a fresh mirror shows is determined by the frames in their order and by the number of
   errors: the counters add up to the messages taken, and the tail is the newest `tailSize`
   compact lines, newest first.
   */
  lemma {:induction false} IngestAllShape(
    codec: TimeCodec, options: Options, msgs: seq<IngestMsg>, clock: nat -> Stamp)
    ensures
      var v := IngestAll(codec, Fresh(options), msgs, clock);
      var frames := FiledFrames(msgs, clock);
      && v == FramesView(codec, options, frames, CountParseErrors(msgs), CountIoErrors(msgs))
      && v.framesSeen + v.parseErrors + v.ioErrors == |msgs|
  {
    hide Ingested, Newest, Compact, Table;
    if msgs == [] {
      FreshView(codec, options);
    } else {
      hide FiledFrames, CountParseErrors, CountIoErrors;
      var n := |msgs| - 1;
      IngestAllShape(codec, options, msgs[..n], clock);
      FiledStep(msgs, clock);
      var before := msgs[..n];
      IngestStep(codec, options, FiledFrames(before, clock), CountParseErrors(before), CountIoErrors(before), msgs[n], clock(n));
    }
  }

  lemma FreshView(codec: TimeCodec, options: Options)
    ensures FramesView(codec, options, [], 0, 0) == Fresh(options)
  {
  }

  lemma FiledStep(msgs: seq<IngestMsg>, clock: nat -> Stamp)
    requires msgs != []
    ensures
      var n := |msgs| - 1;
      var before := FiledFrames(msgs[..n], clock);
      && FiledFrames(msgs, clock) == FiledAfter(before, msgs[n], clock(n))
      && CountParseErrors(msgs) == CountParseErrors(msgs[..n]) + (if msgs[n].ParseErrorMsg? then 1 else 0)
      && CountIoErrors(msgs) == CountIoErrors(msgs[..n]) + (if msgs[n].IoErrorMsg? then 1 else 0)
  {
  }

  function FiledAfter(before: seq<Filed>, msg: IngestMsg, now: Stamp): seq<Filed> {
    match msg
    case FrameMsg(f) => before + [Filed(f, Stamped(f, now))]
    case _ => before
  }

  lemma IngestStep(
    codec: TimeCodec, options: Options, before: seq<Filed>, parseErrors: nat, ioErrors: nat, msg: IngestMsg, now: Stamp)
    ensures Ingested(codec, FramesView(codec, options, before, parseErrors, ioErrors), msg, now) ==
            FramesView(codec, options, FiledAfter(before, msg, now),
                       parseErrors + (if msg.ParseErrorMsg? then 1 else 0), ioErrors + (if msg.IoErrorMsg? then 1 else 0))
  {
    hide ToCompactLine, Newest, KeyOf, Compact;
    if msg.FrameMsg? {
      var filed := Filed(msg.frame, Stamped(msg.frame, now));
      assert (before + [filed])[..|before|] == before;
      assert EntityOf(msg.frame, now) == EntityOf(msg.frame, filed.seen);
      CompactStep(codec, before, filed);
      NewestAgain(ToCompactLine(codec, msg.frame), Compact(codec, before), options.tailSize);
    }
  }

  /** The last frame of a key decides its row. */
  lemma {:induction false} TableLast(frames: seq<Filed>, i: nat)
    requires i < |frames|
    requires forall j :: i < j < |frames| ==> KeyOf(frames[j].frame) != KeyOf(frames[i].frame)
    ensures KeyOf(frames[i].frame) in Table(frames)
    ensures Table(frames)[KeyOf(frames[i].frame)] == EntityOf(frames[i].frame, frames[i].seen)
  {
    hide KeyOf, EntityOf;
    var n := |frames| - 1;
    if i < n {
      TableLast(frames[..n], i);
    }
  }

  /** Every row goes back to the last frame of its key. */
  lemma {:induction false} TableOrigin(frames: seq<Filed>, key: string) returns (i: nat)
    requires key in Table(frames)
    ensures i < |frames| && KeyOf(frames[i].frame) == key
    ensures forall j :: i < j < |frames| ==> KeyOf(frames[j].frame) != key
    ensures Table(frames)[key] == EntityOf(frames[i].frame, frames[i].seen)
  {
    hide KeyOf, EntityOf;
    var n := |frames| - 1;
    if KeyOf(frames[n].frame) == key {
      i := n;
    } else {
      i := TableOrigin(frames[..n], key);
    }
  }

  /** Line by line: as many lines as frames, up to `tailSize`, the i-th from the i-th newest frame. */
  lemma TailShowsNewest(codec: TimeCodec, options: Options, msgs: seq<IngestMsg>, clock: nat -> Stamp)
    ensures
      var tail := IngestAll(codec, Fresh(options), msgs, clock).tail;
      var frames := FiledFrames(msgs, clock);
      && |tail| == (if options.tailSize < |frames| then options.tailSize else |frames|)
      && forall i :: 0 <= i < |tail| ==> tail[i] == ToCompactLine(codec, frames[|frames| - 1 - i].frame)
  {
    hide ToCompactLine, IngestAll, FiledFrames;
    IngestAllShape(codec, options, msgs, clock);
  }
}

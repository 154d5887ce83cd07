/**
 The channels that meet at the mirror's UI channel when a transform runs
 (crates/hawk/src/main.rs:185-215): errors of the source, frames out of awk, and awk's own errors,
 each forwarded by a thread of its own.
 */
module Merge {
  import opened HawkFrame
  import opened Mirror

  /** `merged` takes the three channels in some order, keeping each channel's own order. */
  ghost predicate Interleaves(merged: seq<IngestMsg>, a: seq<IngestMsg>, b: seq<IngestMsg>, c: seq<IngestMsg>)
    decreases |merged|
  {
    if merged == [] then a == [] && b == [] && c == []
    else
      var n := |merged| - 1;
      || (a != [] && a[|a| - 1] == merged[n] && Interleaves(merged[..n], a[..|a| - 1], b, c))
      || (b != [] && b[|b| - 1] == merged[n] && Interleaves(merged[..n], a, b[..|b| - 1], c))
      || (c != [] && c[|c| - 1] == merged[n] && Interleaves(merged[..n], a, b, c[..|c| - 1]))
  }

  predicate AllErrors(msgs: seq<IngestMsg>) {
    forall i :: 0 <= i < |msgs| ==> !msgs[i].FrameMsg?
  }

  predicate AllFrames(msgs: seq<IngestMsg>) {
    forall i :: 0 <= i < |msgs| ==> msgs[i].FrameMsg?
  }

  lemma FramesOfMerge(
    merged: seq<IngestMsg>, a: seq<IngestMsg>, b: seq<IngestMsg>, c: seq<IngestMsg>)
    requires Interleaves(merged, a, b, c)
    requires AllErrors(a) && AllFrames(b) && AllErrors(c)
    ensures OnlyFrames(merged) == b
    ensures CountParseErrors(merged) == CountParseErrors(a) + CountParseErrors(c)
    ensures CountIoErrors(merged) == CountIoErrors(a) + CountIoErrors(c)
    ensures |merged| == |a| + |b| + |c|
  {
    hide Interleaves;
    OnlyFramesOfMerge(merged, a, b, c);
    ErrorsOfMerge(merged, a, b, c);
  }

  lemma {:induction false} OnlyFramesOfMerge(
    merged: seq<IngestMsg>, a: seq<IngestMsg>, b: seq<IngestMsg>, c: seq<IngestMsg>)
    requires Interleaves(merged, a, b, c)
    requires AllErrors(a) && AllFrames(b) && AllErrors(c)
    ensures OnlyFrames(merged) == b && |merged| == |a| + |b| + |c|
    decreases |merged|
  {
    if merged != [] {
      hide OnlyFrames, CountParseErrors, CountIoErrors, Interleaves;
      var n := |merged| - 1;
      LastCounts(merged);
      var from := LastFrom(merged, a, b, c);
      if from == 0 {
        OnlyFramesOfMerge(merged[..n], a[..|a| - 1], b, c);
      } else if from == 1 {
        OnlyFramesOfMerge(merged[..n], a, b[..|b| - 1], c);
      } else {
        OnlyFramesOfMerge(merged[..n], a, b, c[..|c| - 1]);
      }
    }
  }

  lemma {:induction false} ErrorsOfMerge(
    merged: seq<IngestMsg>, a: seq<IngestMsg>, b: seq<IngestMsg>, c: seq<IngestMsg>)
    requires Interleaves(merged, a, b, c) && AllFrames(b)
    ensures CountParseErrors(merged) == CountParseErrors(a) + CountParseErrors(c)
    ensures CountIoErrors(merged) == CountIoErrors(a) + CountIoErrors(c)
    decreases |merged|
  {
    if merged != [] {
      hide OnlyFrames, CountParseErrors, CountIoErrors, Interleaves;
      var n := |merged| - 1;
      LastCounts(merged);
      var from := LastFrom(merged, a, b, c);
      if from == 0 {
        ErrorsOfMerge(merged[..n], a[..|a| - 1], b, c);
        LastCounts(a);
      } else if from == 1 {
        ErrorsOfMerge(merged[..n], a, b[..|b| - 1], c);
      } else {
        ErrorsOfMerge(merged[..n], a, b, c[..|c| - 1]);
        LastCounts(c);
      }
    }
  }

  /** Which of the three the last message came from. */
  lemma LastFrom(merged: seq<IngestMsg>, a: seq<IngestMsg>, b: seq<IngestMsg>, c: seq<IngestMsg>) returns (from: nat)
    requires merged != [] && Interleaves(merged, a, b, c)
    ensures from < 3
    ensures
      var n := |merged| - 1;
      match from
      case 0 => a != [] && a[|a| - 1] == merged[n] && Interleaves(merged[..n], a[..|a| - 1], b, c)
      case 1 => b != [] && b[|b| - 1] == merged[n] && Interleaves(merged[..n], a, b[..|b| - 1], c)
      case _ => c != [] && c[|c| - 1] == merged[n] && Interleaves(merged[..n], a, b, c[..|c| - 1])
  {
    var n := |merged| - 1;
    if a != [] && a[|a| - 1] == merged[n] && Interleaves(merged[..n], a[..|a| - 1], b, c) {
      from := 0;
    } else if b != [] && b[|b| - 1] == merged[n] && Interleaves(merged[..n], a, b[..|b| - 1], c) {
      from := 1;
    } else {
      from := 2;
    }
  }

  lemma LastCounts(msgs: seq<IngestMsg>)
    requires msgs != []
    ensures
      var n := |msgs| - 1;
      && OnlyFrames(msgs) == (if msgs[n].FrameMsg? then OnlyFrames(msgs[..n]) + [msgs[n]] else OnlyFrames(msgs[..n]))
      && CountParseErrors(msgs) == CountParseErrors(msgs[..n]) + (if msgs[n].ParseErrorMsg? then 1 else 0)
      && CountIoErrors(msgs) == CountIoErrors(msgs[..n]) + (if msgs[n].IoErrorMsg? then 1 else 0)
  {
  }

  /** The frames among the messages, in order. */
  function OnlyFrames(msgs: seq<IngestMsg>): seq<IngestMsg> {
    if msgs == [] then []
    else OnlyFrames(msgs[..|msgs| - 1]) + if msgs[|msgs| - 1].FrameMsg? then [msgs[|msgs| - 1]] else []
  }

  /** Each frame is filed under its own stamp, or under the reading taken for it. */
  ghost predicate FiledFrom(filed: seq<Filed>, frames: seq<IngestMsg>) {
    && |filed| == |frames|
    && forall i :: 0 <= i < |frames| ==>
         && frames[i].FrameMsg? && filed[i].frame == frames[i].frame
         && (frames[i].frame.ts.Some? ==> filed[i].seen == frames[i].frame.ts.value)
  }

  lemma {:induction false} FiledOfMerge(msgs: seq<IngestMsg>, clock: nat -> Stamp)
    ensures FiledFrom(FiledFrames(msgs, clock), OnlyFrames(msgs))
  {
    if msgs != [] {
      FiledOfMerge(msgs[..|msgs| - 1], clock);
    }
  }

  /** The reading taken for the k-th frame of a channel. */
  ghost predicate UnstampedAgree(
    m1: seq<IngestMsg>, clock1: nat -> Stamp, m2: seq<IngestMsg>, clock2: nat -> Stamp)
  {
    var f1, f2 := FiledFrames(m1, clock1), FiledFrames(m2, clock2);
    forall k :: 0 <= k < |f1| && k < |f2| && f1[k].frame.ts.None? ==> f1[k].seen == f2[k].seen
  }

  lemma SameFiled(m1: seq<IngestMsg>, clock1: nat -> Stamp, m2: seq<IngestMsg>, clock2: nat -> Stamp)
    requires OnlyFrames(m1) == OnlyFrames(m2) && UnstampedAgree(m1, clock1, m2, clock2)
    ensures FiledFrames(m1, clock1) == FiledFrames(m2, clock2)
  {
    hide FiledFrames, OnlyFrames;
    FiledOfMerge(m1, clock1);
    FiledOfMerge(m2, clock2);
  }

  /**
   Merge confluence: two interleavings of the same three channels leave the same mirror state, if
   each frame without a stamp of its own is taken at the same reading. (With stamped frames the
   readings do not matter.)
   */
  lemma MergeConfluence(
    codec: TimeCodec, options: Options,
    m1: seq<IngestMsg>, clock1: nat -> Stamp, m2: seq<IngestMsg>, clock2: nat -> Stamp,
    sourceErrors: seq<IngestMsg>, awkFrames: seq<IngestMsg>, awkErrors: seq<IngestMsg>)
    requires AllErrors(sourceErrors) && AllFrames(awkFrames) && AllErrors(awkErrors)
    requires Interleaves(m1, sourceErrors, awkFrames, awkErrors)
    requires Interleaves(m2, sourceErrors, awkFrames, awkErrors)
    requires UnstampedAgree(m1, clock1, m2, clock2)
    ensures
      var v0 := Fresh(options);
      var v := IngestAll(codec, v0, m1, clock1);
      && IngestAll(codec, v0, m2, clock2) == v
      && v.framesSeen == |awkFrames|
      && v.framesSeen + v.parseErrors + v.ioErrors == |sourceErrors| + |awkFrames| + |awkErrors|
  {
    hide Interleaves, Compact, Table, AllErrors, AllFrames, UnstampedAgree, IngestAll, FiledFrames,
      CountParseErrors, CountIoErrors, OnlyFrames, ToCompactLine, Newest;
    FramesOfMerge(m1, sourceErrors, awkFrames, awkErrors);
    FramesOfMerge(m2, sourceErrors, awkFrames, awkErrors);
    SameFiled(m1, clock1, m2, clock2);
    FiledOfMerge(m1, clock1);
    IngestAllShape(codec, options, m1, clock1);
    IngestAllShape(codec, options, m2, clock2);
  }
}

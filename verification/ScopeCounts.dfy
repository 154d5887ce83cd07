/**
 packs/hawk.core/scope_counts.awk: counts records per scope and level and, once the window has
 passed, prints one line per key and starts again. Every reading of `systime()` and the order of
 every `for (k in counts)` is an input.
 */
module ScopeCounts {
  import opened Basics
  import opened Text
  import opened Severity
  import opened Ordering
  import opened KvBag
  import opened HawkFrame
  import opened Decimal
  import opened Awk
  import Bridge
  import FailOnly

  const EPOCH: string := "1970-01-01T00:00:00Z"

  function CountKey(line: string): string {
    Field(line, 3) + "|" + Lower(Field(line, 5))
  }

  /** One printed line: the key, its count, and the first column of the record that set it off. */
  datatype Emission = Emission(key: string, count: nat, first: string)

  /** The two clock readings of a record, and the order in which awk walks the keys. */
  datatype Tick = Tick(check: int, reset: int, order: set<string> -> seq<string>)

  ghost predicate Walks(order: set<string> -> seq<string>) {
    forall keys :: Distinct(order(keys)) && (forall k :: k in order(keys) <==> k in keys)
  }

  datatype Tally = Tally(counts: map<string, nat>, nextEmit: int, out: seq<Emission>)

  function Pending(counts: map<string, nat>, key: string): nat {
    if key in counts then counts[key] else 0
  }

  function Bump(counts: map<string, nat>, key: string): map<string, nat> {
    counts[key := Pending(counts, key) + 1]
  }

  function Zeroed(counts: map<string, nat>): map<string, nat> {
    map k | k in counts :: 0
  }

  function Emissions(counts: map<string, nat>, order: seq<string>, first: string): seq<Emission> {
    seq(|order|, i requires 0 <= i < |order| => Emission(order[i], Pending(counts, order[i]), first))
  }

  function Record(t: Tally, window: int, line: string, tick: Tick): Tally {
    var counts := Bump(t.counts, CountKey(line));
    if tick.check >= t.nextEmit then
      Tally(Zeroed(counts), tick.reset + window,
            t.out + Emissions(counts, tick.order(counts.Keys), Field(line, 1)))
    else t.(counts := counts)
  }

  class Counter {
    var counts: map<string, nat>
    var nextEmit: int
    var out: seq<Emission>
    const window: int
    const windowText: string

    function Now(): Tally
      reads this
    {
      Tally(counts, nextEmit, out)
    }

    /** BEGIN; `seconds` is the numeric value that awk sees in the variable, if it was given. */
    constructor (windowVar: string, seconds: int, start: int)
      ensures windowVar == "" ==> windowText == "10" && window == 10
      ensures windowVar != "" ==> windowText == windowVar && window == seconds
      ensures Now() == Tally(map[], start + window, [])
    {
      var text, value := windowVar, seconds;
      if windowVar == "" {
        text, value := "10", 10;
      }
      windowText, window := text, value;
      counts, nextEmit, out := map[], start + value, [];
    }

    /** The main action. */
    method OnRecord(line: string, tick: Tick)
      requires Walks(tick.order)
      modifies this
      ensures Now() == Record(old(Now()), window, line, tick)
    {
      hide Field, CountKey, Distinct;
      var key := CountKey(line);
      counts := Bump(counts, key);
      if tick.check >= nextEmit {
        EmitAll(tick.order(counts.Keys), Field(line, 1));
        nextEmit := tick.reset + window;
      }
    }

    /** The loop over the keys: print each count, then reset it. */
    method EmitAll(order: seq<string>, first: string)
      requires Distinct(order) && forall k :: k in order <==> k in counts
      modifies this
      ensures Now() == Tally(Zeroed(old(counts)), old(nextEmit), old(out) + Emissions(old(counts), order, first))
    {
      ghost var was := counts;
      var i := 0;
      while i < |order|
        invariant 0 <= i <= |order|
        invariant counts.Keys == was.Keys
        invariant forall j :: 0 <= j < i ==> counts[order[j]] == 0
        invariant forall j :: i <= j < |order| ==> counts[order[j]] == was[order[j]]
        invariant out == old(out) + Emissions(was, order[..i], first)
        invariant nextEmit == old(nextEmit)
      {
        var k := order[i];
        out := out + [Emission(k, counts[k], first)];
        OrderStep(counts, was, order, i);
        counts := counts[k := 0];
        EmissionsStep(was, order, i, first);
        i := i + 1;
      }
      assert order[..i] == order;
      assert counts == Zeroed(was);
    }
  }

  lemma EmissionsStep(counts: map<string, nat>, order: seq<string>, i: nat, first: string)
    requires i < |order|
    ensures Emissions(counts, order[..i + 1], first) ==
            Emissions(counts, order[..i], first) + [Emission(order[i], Pending(counts, order[i]), first)]
  {
  }

  /** Resetting one key leaves the keys before it reset and those behind it as they were. */
  lemma OrderStep(counts: map<string, nat>, was: map<string, nat>, order: seq<string>, i: nat)
    requires i < |order| && Distinct(order)
    requires forall k :: k in order ==> k in counts && k in was
    ensures
      var next := counts[order[i] := 0];
      && (forall j :: 0 <= j < |order| && j != i ==> next[order[j]] == counts[order[j]])
      && next[order[i]] == 0
  {
  }

  // ----- Conservation

  /** What has been printed for a key. */
  function Printed(out: seq<Emission>, key: string): nat {
    if out == [] then 0
    else
      var last := out[|out| - 1];
      Printed(out[..|out| - 1], key) + if last.key == key then last.count else 0
  }

  function Occurrences(lines: seq<string>, key: string): nat {
    if lines == [] then 0
    else Occurrences(lines[..|lines| - 1], key) + if CountKey(lines[|lines| - 1]) == key then 1 else 0
  }

  function RunAll(window: int, start: int, lines: seq<string>, ticks: seq<Tick>): Tally
    requires |ticks| == |lines|
  {
    if lines == [] then Tally(map[], start + window, [])
    else
      var n := |lines| - 1;
      Record(RunAll(window, start, lines[..n], ticks[..n]), window, lines[n], ticks[n])
  }

  lemma {:induction false} PrintedConcat(a: seq<Emission>, b: seq<Emission>, key: string)
    ensures Printed(a + b, key) == Printed(a, key) + Printed(b, key)
  {
    if b == [] {
      assert a + b == a;
    } else {
      var n := |b| - 1;
      assert (a + b)[..|a + b| - 1] == a + b[..n];
      PrintedConcat(a, b[..n], key);
    }
  }

  /** Walking every key once prints exactly what was pending. */
  lemma {:induction false} PrintedEmissions(counts: map<string, nat>, order: seq<string>, first: string, key: string)
    requires Distinct(order)
    ensures Printed(Emissions(counts, order, first), key) == if key in order then Pending(counts, key) else 0
  {
    if order != [] {
      var n := |order| - 1;
      PrintedEmissions(counts, order[..n], first, key);
      assert Emissions(counts, order, first)[..n] == Emissions(counts, order[..n], first);
      assert order == order[..n] + [order[n]];
    }
  }

  /**
   Count conservation: for every input and every clock, what was printed for a key and what is
   still pending for it add up to the number of records with that key.
   */
  lemma {:induction false} CountsConserved(window: int, start: int, lines: seq<string>, ticks: seq<Tick>, key: string)
    requires |ticks| == |lines|
    requires forall i :: 0 <= i < |ticks| ==> Walks(ticks[i].order)
    ensures
      var t := RunAll(window, start, lines, ticks);
      Printed(t.out, key) + Pending(t.counts, key) == Occurrences(lines, key)
  {
    hide CountKey, Field;
    if lines != [] {
      var n := |lines| - 1;
      CountsConserved(window, start, lines[..n], ticks[..n], key);
      var t := RunAll(window, start, lines[..n], ticks[..n]);
      var counts := Bump(t.counts, CountKey(lines[n]));
      if ticks[n].check >= t.nextEmit {
        var order := ticks[n].order(counts.Keys);
        PrintedEmissions(counts, order, Field(lines[n], 1), key);
        PrintedConcat(t.out, Emissions(counts, order, Field(lines[n], 1)), key);
      }
    }
  }

  // ----- When lines are printed

  /** The end of the window that record `n` is read in: from the start, or from the last emission. */
  function WindowEnd(window: int, start: int, ticks: seq<Tick>, n: nat): int
    requires n <= |ticks|
    decreases n, 0
  {
    if n == 0 then start + window
    else if Emits(window, start, ticks, n - 1) then ticks[n - 1].reset + window
    else WindowEnd(window, start, ticks, n - 1)
  }

  /** Record `n` is read at or after the end of its window. */
  predicate Emits(window: int, start: int, ticks: seq<Tick>, n: nat)
    requires n < |ticks|
    decreases n, 1
  {
    ticks[n].check >= WindowEnd(window, start, ticks, n)
  }

  /** The first record of the window that record `n` is read in. */
  function Since(window: int, start: int, ticks: seq<Tick>, n: nat): (a: nat)
    requires n <= |ticks|
    ensures a <= n
  {
    if n == 0 then 0
    else if Emits(window, start, ticks, n - 1) then n
    else Since(window, start, ticks, n - 1)
  }

  ghost function KeysIn(lines: seq<string>): set<string> {
    set i | 0 <= i < |lines| :: CountKey(lines[i])
  }

  function RunTo(window: int, start: int, lines: seq<string>, ticks: seq<Tick>, n: nat): Tally
    requires n <= |lines| == |ticks|
  {
    RunAll(window, start, lines[..n], ticks[..n])
  }

  lemma RunStep(window: int, start: int, lines: seq<string>, ticks: seq<Tick>, n: nat)
    requires n < |lines| == |ticks|
    ensures RunTo(window, start, lines, ticks, n + 1) ==
            Record(RunTo(window, start, lines, ticks, n), window, lines[n], ticks[n])
  {
    hide Record;
    assert lines[..n + 1][..n] == lines[..n] && ticks[..n + 1][..n] == ticks[..n];
  }

  lemma KeysStep(lines: seq<string>, n: nat)
    requires n < |lines|
    ensures KeysIn(lines[..n + 1]) == KeysIn(lines[..n]) + {CountKey(lines[n])}
  {
    hide CountKey;
    forall k | k in KeysIn(lines[..n + 1]) ensures k in KeysIn(lines[..n]) + {CountKey(lines[n])} {
      var i :| 0 <= i < n + 1 && CountKey(lines[..n + 1][i]) == k;
      if i < n {
        assert lines[..n][i] == lines[i];
      }
    }
    forall k | k in KeysIn(lines[..n]) ensures k in KeysIn(lines[..n + 1]) {
      var i :| 0 <= i < n && CountKey(lines[..n][i]) == k;
      assert lines[..n + 1][i] == lines[i];
    }
    assert lines[..n + 1][n] == lines[n];
  }

  lemma OccurrencesStep(lines: seq<string>, a: nat, n: nat, key: string)
    requires a <= n < |lines|
    ensures Occurrences(lines[a..n + 1], key) == Occurrences(lines[a..n], key) + if CountKey(lines[n]) == key then 1 else 0
  {
    hide CountKey;
    assert lines[a..n + 1][..n - a] == lines[a..n];
  }

  /** The state at any record: the window's end, the keys so far, and the counts since the window began. */
  lemma {:induction false} WindowState(window: int, start: int, lines: seq<string>, ticks: seq<Tick>, n: nat)
    requires n <= |lines| == |ticks|
    ensures
      var t := RunTo(window, start, lines, ticks, n);
      && t.nextEmit == WindowEnd(window, start, ticks, n)
      && t.counts.Keys == KeysIn(lines[..n])
      && forall k :: Pending(t.counts, k) == Occurrences(lines[Since(window, start, ticks, n)..n], k)
  {
    hide RunTo, CountKey, Occurrences, KeysIn, Field;
    if n == 0 {
      NothingRun(window, start, lines, ticks);
    } else {
      var m := n - 1;
      WindowState(window, start, lines, ticks, m);
      RunStep(window, start, lines, ticks, m);
      KeysStep(lines, m);
      var a := Since(window, start, ticks, m);
      NoOccurrences(lines, n);
      forall k ensures Occurrences(lines[a..n], k) == Occurrences(lines[a..m], k) + if CountKey(lines[m]) == k then 1 else 0 {
        OccurrencesStep(lines, a, m, k);
      }
    }
  }

  lemma NothingRun(window: int, start: int, lines: seq<string>, ticks: seq<Tick>)
    requires |lines| == |ticks|
    ensures RunTo(window, start, lines, ticks, 0) == Tally(map[], start + window, [])
    ensures KeysIn(lines[..0]) == {} && forall k :: Occurrences(lines[0..0], k) == 0
  {
  }

  lemma NoOccurrences(lines: seq<string>, n: nat)
    requires n <= |lines|
    ensures forall k :: Occurrences(lines[n..n], k) == 0
  {
  }

  /** What is printed when the window is over: every key counted so far, once, with its count since then. */
  ghost predicate PrintsAll(emitted: seq<Emission>, keys: set<string>, since: seq<string>, first: string) {
    && (forall i, j :: 0 <= i < j < |emitted| ==> emitted[i].key != emitted[j].key)
    && (forall k :: k in keys <==> exists i :: 0 <= i < |emitted| && emitted[i].key == k)
    && (forall i :: 0 <= i < |emitted| ==> emitted[i].count == Occurrences(since, emitted[i].key) && emitted[i].first == first)
  }

  /**
   When lines are printed, for every input, clock and walking order: a record prints if and only if it is
   read at or after the end of the current window, which is the start or the last reset reading plus the
   window. It then prints every key counted so far exactly once, with the number of its records since the
   last time, and nothing is pending; otherwise output and window stay as they were.
   */
  lemma WindowExact(window: int, start: int, lines: seq<string>, ticks: seq<Tick>, n: nat)
    requires n < |lines| == |ticks| && Walks(ticks[n].order)
    ensures
      var t, t' := RunTo(window, start, lines, ticks, n), RunTo(window, start, lines, ticks, n + 1);
      && (t'.out != t.out <==> Emits(window, start, ticks, n))
      && (!Emits(window, start, ticks, n) ==> t'.nextEmit == t.nextEmit)
      && (Emits(window, start, ticks, n) ==>
            && t'.nextEmit == ticks[n].reset + window
            && t.out <= t'.out
            && PrintsAll(t'.out[|t.out|..], KeysIn(lines[..n + 1]), lines[Since(window, start, ticks, n)..n + 1], Field(lines[n], 1))
            && forall k :: Pending(t'.counts, k) == 0)
  {
    hide RunTo, CountKey, Occurrences, KeysIn, Field, WindowEnd, Since, PrintsAll, Emissions;
    WindowState(window, start, lines, ticks, n);
    RunStep(window, start, lines, ticks, n);
    if Emits(window, start, ticks, n) {
      var t := RunTo(window, start, lines, ticks, n);
      var counts, a := Bump(t.counts, CountKey(lines[n])), Since(window, start, ticks, n);
      KeysStep(lines, n);
      forall k ensures Pending(counts, k) == Occurrences(lines[a..n + 1], k) {
        OccurrencesStep(lines, a, n, k);
      }
      assert CountKey(lines[n]) in counts;
      EmissionsPrintAll(counts, ticks[n].order, lines[a..n + 1], Field(lines[n], 1));
      var t' := RunTo(window, start, lines, ticks, n + 1);
      assert t'.out[|t.out|..] == Emissions(counts, ticks[n].order(counts.Keys), Field(lines[n], 1));
      assert counts.Keys == KeysIn(lines[..n + 1]);
    }
  }

  lemma EmissionsPrintAll(counts: map<string, nat>, order: set<string> -> seq<string>, since: seq<string>, first: string)
    requires Walks(order) && forall k :: Pending(counts, k) == Occurrences(since, k)
    ensures PrintsAll(Emissions(counts, order(counts.Keys), first), counts.Keys, since, first)
    ensures counts.Keys != {} ==> Emissions(counts, order(counts.Keys), first) != []
  {
    hide Occurrences, Pending;
    var keys, walk := counts.Keys, order(counts.Keys);
    var emitted := Emissions(counts, walk, first);
    forall k | k in keys ensures exists i :: 0 <= i < |emitted| && emitted[i].key == k {
      assert k in walk;
      var i :| 0 <= i < |walk| && walk[i] == k;
      assert emitted[i].key == k;
    }
    forall i | 0 <= i < |emitted| ensures emitted[i].key in keys {
      assert walk[i] in walk;
    }
    if keys != {} {
      var k :| k in keys;
      assert k in walk;
    }
  }

  // ----- Keys stand for scope and level

  function PairKey(scope: string, level: Level): string {
    scope + "|" + level.AsStr()
  }

  lemma SplitPairKey(scope: string, level: Level)
    ensures Split(PairKey(scope, level), '|') == Split(scope, '|') + [level.AsStr()]
  {
    LevelWord(level);
    SplitConcat(scope, level.AsStr(), '|');
    SplitWhole(level.AsStr(), '|');
  }

  /** Different scopes or levels never share a key, even if a scope contains the separator. */
  lemma PairKeyInjective(s1: string, l1: Level, s2: string, l2: Level)
    requires PairKey(s1, l1) == PairKey(s2, l2)
    ensures s1 == s2 && l1 == l2
  {
    SplitPairKey(s1, l1);
    SplitPairKey(s2, l2);
    var parts := Split(PairKey(s1, l1), '|');
    assert parts[|parts| - 1] == l1.AsStr() == l2.AsStr();
    LevelRoundTrip(l1);
    LevelRoundTrip(l2);
    assert s1 == PairKey(s1, l1)[..|s1|];
    assert s2 == PairKey(s2, l2)[..|s2|];
  }

  function FramesWith(frames: seq<Frame>, scope: string, level: Level): nat {
    if frames == [] then 0
    else
      var last := frames[|frames| - 1];
      FramesWith(frames[..|frames| - 1], scope, level) + if last.scope == scope && last.level == level then 1 else 0
  }

  lemma {:induction false} OccurrencesAreFrames(
    codec: TimeCodec, frames: seq<Frame>, clocks: seq<Stamp>, scope: string, level: Level)
    requires Lawful(codec) && |clocks| == |frames| && Bridge.Printable(codec, frames, clocks)
    ensures Occurrences(Bridge.Printed(codec, frames, clocks), PairKey(scope, level)) == FramesWith(frames, scope, level)
  {
    hide ToTsvLine, CleanFrame, Formattable, Field, PairKey;
    if frames != [] {
      var n := |frames| - 1;
      var lines := Bridge.Printed(codec, frames, clocks);
      OccurrencesAreFrames(codec, frames[..n], clocks[..n], scope, level);
      assert lines[..n] == Bridge.Printed(codec, frames[..n], clocks[..n]);
      KeyOfFrame(codec, frames[n], clocks[n]);
      if PairKey(frames[n].scope, frames[n].level) == PairKey(scope, level) {
        PairKeyInjective(frames[n].scope, frames[n].level, scope, level);
      }
    }
  }

  lemma KeyOfFrame(codec: TimeCodec, f: Frame, now: Stamp)
    requires Lawful(codec) && CleanFrame(f) && Formattable(codec, Stamped(f, now))
    ensures CountKey(ToTsvLine(codec, f, now)) == PairKey(f.scope, f.level)
  {
    hide ToTsvLine, CleanFrame;
    FailOnly.PrintedFields(codec, f, now);
    LevelWord(f.level);
  }

  /**
   Behind the bridge: what was printed and is pending for a scope and level adds up to the number
   of frames with that scope and level.
   */
  lemma FramesConserved(
    codec: TimeCodec, window: int, start: int, frames: seq<Frame>, clocks: seq<Stamp>, ticks: seq<Tick>,
    scope: string, level: Level)
    requires Lawful(codec) && |ticks| == |clocks| == |frames| && Bridge.Printable(codec, frames, clocks)
    requires forall i :: 0 <= i < |ticks| ==> Walks(ticks[i].order)
    ensures
      var t := RunAll(window, start, Bridge.Printed(codec, frames, clocks), ticks);
      Printed(t.out, PairKey(scope, level)) + Pending(t.counts, PairKey(scope, level)) == FramesWith(frames, scope, level)
  {
    hide Walks, RunAll, PairKey;
    CountsConserved(window, start, Bridge.Printed(codec, frames, clocks), ticks, PairKey(scope, level));
    OccurrencesAreFrames(codec, frames, clocks, scope, level);
  }

  // ----- The printed lines

  /** `split(k, parts, "|")` and the bag that `emit` builds. */
  function EmitBag(key: string, count: nat, window: string): string {
    var parts := Split(key, '|');
    var level := if |parts| > 1 then parts[1] else "";
    Join(["src_scope=" + parts[0], "src_level=" + level, "count=" + Digits(count), "window_s=" + window], ';')
  }

  /** The line that `emit` prints. */
  function EmitLine(e: Emission, window: string): string {
    var ts := if e.first == "" then EPOCH else e.first;
    Join([ts, "RECEIPT_EVENT", "awk", "scope_counts", "info", "count", EmitBag(e.key, e.count, window)], '\t')
  }

  /** Without a stamp in the record, the line carries the epoch. */
  lemma EpochLine(key: string, count: nat, window: string)
    ensures EmitLine(Emission(key, count, ""), window) == EmitLine(Emission(key, count, "1970-01-01T00:00:00Z"), window)
  {
    hide EmitBag;
  }

  /** The text of the window variable: any integer the manifest schema lets through. */
  ghost predicate WindowText(window: string) {
    ParseI64(window).Some?
  }

  /** The bag of an emitted line names the scope, the level, the count and the window. */
  ghost predicate Names(kv: Bag, scope: string, level: Level, count: nat, window: string) {
    && "src_scope" in kv && kv["src_scope"] == scope
    && "src_level" in kv && kv["src_level"] == level.AsStr()
    && "count" in kv && kv["count"] == Digits(count)
    && "window_s" in kv && kv["window_s"] == window
  }

  lemma DigitsPlain(n: nat)
    ensures Trimmed(Digits(n)) && forall c :: c in Digits(n) ==> IsDigit(c)
  {
  }

  lemma EmitBagPieces(key: string, count: nat, window: string, d: char)
    requires WindowText(window)
    requires d in {'\t', '|'} && d !in Split(key, '|')[0]
    requires |Split(key, '|')| > 1 ==> d !in Split(key, '|')[1]
    ensures d !in EmitBag(key, count, window)
  {
    hide Split, ParseI64;
    IntTextPlain(window);
    DigitsPlain(count);
    var parts := Split(key, '|');
    var level := if |parts| > 1 then parts[1] else "";
    var pieces := ["src_scope=" + parts[0], "src_level=" + level, "count=" + Digits(count), "window_s=" + window];
    assert forall i :: 0 <= i < 4 ==> d !in pieces[i];
    JoinKeepsOut(pieces, ';', d);
  }

  lemma EmitBagTrimmed(key: string, count: nat, window: string)
    requires WindowText(window)
    ensures Trimmed(EmitBag(key, count, window))
  {
    hide Split, ParseI64, Digits;
    IntTextPlain(window);
    var parts := Split(key, '|');
    var level := if |parts| > 1 then parts[1] else "";
    var front := ["src_scope=" + parts[0], "src_level=" + level, "count=" + Digits(count)];
    var last := "window_s=" + window;
    assert front + [last] == ["src_scope=" + parts[0], "src_level=" + level, "count=" + Digits(count), last];
    JoinConcat(front, [last], ';');
    assert Join(front, ';') == front[0] + [';'] + Join(front[1..], ';');
    var bag := EmitBag(key, count, window);
    assert bag[0] == 's';
    assert bag[|bag| - 1] == window[|window| - 1];
  }

  /** An emitted line parses to a frame of the thread with the stamp of the record behind it. */
  lemma EmitLineParses(codec: TimeCodec, t: Stamp, key: string, count: nat, window: string)
    requires Lawful(codec) && Formattable(codec, t) && WindowText(window)
    requires '\t' !in EmitBag(key, count, window)
    ensures Parse(codec, EmitLine(Emission(key, count, StampColumn(codec, t)), window)) ==
            Accepted(Frame(Some(t), "RECEIPT_EVENT", "awk", "scope_counts", Info, "count", KvOf(EmitBag(key, count, window))))
  {
    hide EmitBag, Parse, Join, WindowText, KvOf;
    var ts, bag := StampColumn(codec, t), EmitBag(key, count, window);
    EmitBagTrimmed(key, count, window);
    StampTextTrimmed(ts);
    var cols := [ts, "RECEIPT_EVENT", "awk", "scope_counts", "info", "count", bag];
    ParseJoined(codec, cols);
    FixedColumns();
    TrimIdentity(bag);
  }

  lemma FixedColumns()
    ensures Trim("RECEIPT_EVENT") == "RECEIPT_EVENT" && Trim("awk") == "awk"
    ensures Trim("scope_counts") == "scope_counts" && Trim("count") == "count" && ParseLevel("info") == Info
  {
    TrimIdentity("RECEIPT_EVENT");
    TrimIdentity("awk");
    TrimIdentity("scope_counts");
    TrimIdentity("count");
    LevelRoundTrip(Info);
  }

  lemma PairKeyParts(scope: string, level: Level)
    ensures
      var parts := Split(PairKey(scope, level), '|');
      && |parts| > 1
      && '|' !in parts[0] && '|' !in parts[1]
      && ('\t' !in scope ==> '\t' !in parts[0] && '\t' !in parts[1])
      && ('|' !in scope ==> parts == [scope, level.AsStr()])
  {
    SplitPairKey(scope, level);
    LevelWord(level);
    var parts := Split(scope, '|');
    SplitPieces(scope, '|', 0);
    if |parts| > 1 {
      SplitPieces(scope, '|', 1);
    }
    if '|' !in scope {
      SplitWhole(scope, '|');
    }
  }

  lemma FourEntries(a: (string, string), b: (string, string), c: (string, string), d: (string, string))
    requires a.0 != b.0 && a.0 != c.0 && a.0 != d.0 && b.0 != c.0 && b.0 != d.0 && c.0 != d.0
    ensures
      var kv := Build([Some(a), Some(b), Some(c), Some(d)]);
      && a.0 in kv && kv[a.0] == a.1
      && b.0 in kv && kv[b.0] == b.1
      && c.0 in kv && kv[c.0] == c.1
      && d.0 in kv && kv[d.0] == d.1
  {
    var entries := [Some(a), Some(b), Some(c), Some(d)];
    BuildLast(entries, 0, a.0);
    BuildLast(entries, 1, b.0);
    BuildLast(entries, 2, c.0);
    BuildLast(entries, 3, d.0);
  }

  lemma GoodScopeNamed(scope: string, level: Level, count: nat, window: string)
    requires CleanText(scope) && WindowText(window) && '|' !in scope && ';' !in scope
    ensures Names(KvOf(EmitBag(PairKey(scope, level), count, window)), scope, level, count, window)
  {
    hide PairKey, KvOf, ParseI64, Digits, EntryOf, Build, Entries, PlainKey;
    PairKeyParts(scope, level);
    IntTextPlain(window);
    DigitsPlain(count);
    LevelWord(level);
    TrimTrims(level.AsStr());
    var word, n := level.AsStr(), Digits(count);
    var pieces := ["src_scope" + "=" + scope, "src_level" + "=" + word, "count" + "=" + n, "window_s" + "=" + window];
    FixedKeys();
    GoodPiece("src_scope", scope);
    GoodPiece("src_level", word);
    GoodPiece("count", n);
    GoodPiece("window_s", window);
    assert "src_scope" + "=" == "src_scope=" && "src_level" + "=" == "src_level=";
    assert "count" + "=" == "count=" && "window_s" + "=" == "window_s=";
    assert EmitBag(PairKey(scope, level), count, window) == Join(pieces, ';');
    SplitJoin(pieces, ';');
    KvOfBuild(Join(pieces, ';'));
    FourPieces(scope, word, n, window);
  }

  lemma FourPieces(scope: string, word: string, n: string, window: string)
    requires Trimmed(scope) && ';' !in scope && Trimmed(word) && ';' !in word && Trimmed(n) && ';' !in n
    requires Trimmed(window) && ';' !in window
    ensures
      var kv := Build(Entries(["src_scope" + "=" + scope, "src_level" + "=" + word, "count" + "=" + n, "window_s" + "=" + window]));
      && "src_scope" in kv && kv["src_scope"] == scope
      && "src_level" in kv && kv["src_level"] == word
      && "count" in kv && kv["count"] == n
      && "window_s" in kv && kv["window_s"] == window
  {
    hide EntryOf, Build, PlainKey, Trimmed;
    FixedKeys();
    GoodPiece("src_scope", scope);
    GoodPiece("src_level", word);
    GoodPiece("count", n);
    GoodPiece("window_s", window);
    FourEntries(("src_scope", scope), ("src_level", word), ("count", n), ("window_s", window));
    assert Entries(["src_scope" + "=" + scope, "src_level" + "=" + word, "count" + "=" + n, "window_s" + "=" + window]) ==
      [Some(("src_scope", scope)), Some(("src_level", word)), Some(("count", n)), Some(("window_s", window))];
  }

  lemma FixedKeys()
    ensures PlainKey("src_scope") && PlainKey("src_level") && PlainKey("count") && PlainKey("window_s")
  {
  }

  lemma GoodPiece(key: string, value: string)
    requires PlainKey(key) && Trimmed(value) && ';' !in value
    ensures ';' !in key + "=" + value && EntryOf(key + "=" + value) == Some((key, value))
  {
    hide EntryOf;
    PairText(key, value);
    PairEntry(key, value);
  }

  /**
   An emitted line is accepted by the mirror with the stamp of the record that set it off, and it
   names the scope, level and count it stands for if and only if the scope has neither `|` nor `;`.
   */
  lemma EmissionReparses(codec: TimeCodec, t: Stamp, scope: string, level: Level, count: nat, window: string)
    requires Lawful(codec) && Formattable(codec, t) && CleanText(scope) && WindowText(window)
    ensures
      var p := Parse(codec, EmitLine(Emission(PairKey(scope, level), count, StampColumn(codec, t)), window));
      && p.Accepted? && p.frame.ts == Some(t) && p.frame.scope == "awk" && p.frame.id == "scope_counts"
      && (Names(p.frame.kv, scope, level, count, window) <==> '|' !in scope && ';' !in scope)
  {
    hide Parse, EmitLine, PairKey, WindowText, EmitBag, KvOf;
    PairKeyParts(scope, level);
    var key := PairKey(scope, level);
    var bag := EmitBag(key, count, window);
    EmitBagPieces(key, count, window, '\t');
    EmitBagPieces(key, count, window, '|');
    EmitLineParses(codec, t, key, count, window);
    KvOfClean(bag);
    if '|' !in scope && ';' !in scope {
      GoodScopeNamed(scope, level, count, window);
    }
  }

  // ----- The counts, read back from the printed lines

  function EmitLines(out: seq<Emission>, window: string): seq<string> {
    seq(|out|, i requires 0 <= i < |out| => EmitLine(out[i], window))
  }

  /** The count that a reader finds in a bag for a scope and level. */
  function CountIn(kv: Bag, scope: string, level: Level): nat {
    if "src_scope" in kv && kv["src_scope"] == scope && "src_level" in kv && kv["src_level"] == level.AsStr() && "count" in kv
    then ParseDigits(kv["count"]).UnwrapOr(0)
    else 0
  }

  function Reported(frames: seq<Frame>, scope: string, level: Level): nat {
    if frames == [] then 0
    else
      var n := |frames| - 1;
      Reported(frames[..n], scope, level) + CountIn(frames[n].kv, scope, level)
  }

  ghost predicate GoodScope(scope: string) {
    CleanText(scope) && '|' !in scope && ';' !in scope
  }

  /** A key that stands for one of the frames' scope and level. */
  predicate KeyOfSome(frames: seq<Frame>, key: string) {
    exists i :: 0 <= i < |frames| && key == PairKey(frames[i].scope, frames[i].level)
  }

  ghost predicate StampOfSome(codec: TimeCodec, first: string) {
    exists t :: Formattable(codec, t) && first == StampColumn(codec, t)
  }

  ghost predicate Traced(codec: TimeCodec, frames: seq<Frame>, t: Tally) {
    && (forall k :: k in t.counts ==> KeyOfSome(frames, k))
    && (forall i :: 0 <= i < |t.out| ==> KeyOfSome(frames, t.out[i].key) && StampOfSome(codec, t.out[i].first))
  }

  lemma KeyOfMore(frames: seq<Frame>, n: nat, key: string)
    requires n <= |frames| && KeyOfSome(frames[..n], key)
    ensures KeyOfSome(frames, key)
  {
    hide PairKey;
    var i :| 0 <= i < n && key == PairKey(frames[..n][i].scope, frames[..n][i].level);
    assert frames[..n][i] == frames[i];
  }

  /** Every key counted and every line printed goes back to a frame. */
  lemma {:induction false} RunIsTraced(
    codec: TimeCodec, window: int, start: int, frames: seq<Frame>, clocks: seq<Stamp>, ticks: seq<Tick>)
    requires Lawful(codec) && |ticks| == |clocks| == |frames| && Bridge.Printable(codec, frames, clocks)
    requires forall i :: 0 <= i < |ticks| ==> Walks(ticks[i].order)
    ensures Traced(codec, frames, RunAll(window, start, Bridge.Printed(codec, frames, clocks), ticks))
  {
    hide ToTsvLine, CleanFrame, OneLineFrame, Formattable, Walks, KeyOfSome, StampOfSome, Record;
    if frames != [] {
      var n := |frames| - 1;
      var lines := Bridge.Printed(codec, frames, clocks);
      RunIsTraced(codec, window, start, frames[..n], clocks[..n], ticks[..n]);
      assert lines[..n] == Bridge.Printed(codec, frames[..n], clocks[..n]);
      var t := RunAll(window, start, lines[..n], ticks[..n]);
      forall k | KeyOfSome(frames[..n], k) ensures KeyOfSome(frames, k) {
        KeyOfMore(frames, n, k);
      }
      RecordIsTraced(codec, frames, clocks[n], t, window, ticks[n]);
    }
  }

  lemma RecordIsTraced(codec: TimeCodec, frames: seq<Frame>, now: Stamp, t: Tally, window: int, tick: Tick)
    requires Lawful(codec) && frames != [] && Traced(codec, frames, t) && Walks(tick.order)
    requires
      var f := frames[|frames| - 1];
      CleanFrame(f) && Formattable(codec, Stamped(f, now))
    ensures Traced(codec, frames, Record(t, window, ToTsvLine(codec, frames[|frames| - 1], now), tick))
  {
    hide ToTsvLine, CleanFrame, CountKey, Field, PairKey, Distinct;
    var n := |frames| - 1;
    var line := ToTsvLine(codec, frames[n], now);
    KeyOfFrame(codec, frames[n], now);
    FailOnly.PrintedFields(codec, frames[n], now);
    assert KeyOfSome(frames, CountKey(line));
    assert StampOfSome(codec, Field(line, 1));
    var counts := Bump(t.counts, CountKey(line));
    var order := tick.order(counts.Keys);
    assert forall i :: 0 <= i < |order| ==> order[i] in counts.Keys;
  }

  /** A printed line for a good scope, read back, counts for its own scope and level and for no other. */
  lemma LineCounts(codec: TimeCodec, e: Emission, s: string, l: Level, window: string, scope: string, level: Level)
    requires Lawful(codec) && WindowText(window) && GoodScope(s)
    requires e.key == PairKey(s, l) && StampOfSome(codec, e.first)
    ensures
      var p := Parse(codec, EmitLine(e, window));
      p.Accepted? && CountIn(p.frame.kv, scope, level) == if e.key == PairKey(scope, level) then e.count else 0
  {
    hide Parse, EmitLine, PairKey, WindowText, Lawful, ParseDigits, CleanText;
    var t :| Formattable(codec, t) && e.first == StampColumn(codec, t);
    EmissionReparses(codec, t, s, l, e.count, window);
    ReadsDigits(e.count);
    LevelRoundTrip(l);
    LevelRoundTrip(level);
    if e.key == PairKey(scope, level) {
      PairKeyInjective(s, l, scope, level);
    }
  }

  lemma ReadsDigits(n: nat)
    ensures ParseDigits(Digits(n)) == Some(n)
  {
    ValueDigits(n);
  }

  lemma {:induction false} ReportedIsPrinted(
    codec: TimeCodec, frames: seq<Frame>, out: seq<Emission>, window: string, scope: string, level: Level)
    requires Lawful(codec) && WindowText(window) && forall i :: 0 <= i < |frames| ==> GoodScope(frames[i].scope)
    requires forall i :: 0 <= i < |out| ==> KeyOfSome(frames, out[i].key) && StampOfSome(codec, out[i].first)
    ensures
      var parsed := Bridge.ParseAll(codec, EmitLines(out, window));
      Bridge.Errors(parsed) == 0 && Reported(Bridge.Frames(parsed), scope, level) == Printed(out, PairKey(scope, level))
  {
    hide Parse, EmitLine, PairKey, WindowText, Lawful, GoodScope, StampOfSome, CountIn, Bridge.ParseAll, Bridge.Frames, Bridge.Errors;
    var lines := EmitLines(out, window);
    if out == [] {
      FailOnly.NothingParsed(codec);
      assert lines == [];
    } else {
      var n := |out| - 1;
      ReportedIsPrinted(codec, frames, out[..n], window, scope, level);
      assert lines == EmitLines(out[..n], window) + [EmitLine(out[n], window)];
      var i :| 0 <= i < |frames| && out[n].key == PairKey(frames[i].scope, frames[i].level);
      LineCounts(codec, out[n], frames[i].scope, frames[i].level, window, scope, level);
      var p := Parse(codec, EmitLine(out[n], window));
      FailOnly.ParsedStep(codec, EmitLines(out[..n], window), EmitLine(out[n], window), p.frame);
      ReportedStep(Bridge.Frames(Bridge.ParseAll(codec, EmitLines(out[..n], window))), p.frame, scope, level);
    }
  }

  lemma ReportedStep(frames: seq<Frame>, f: Frame, scope: string, level: Level)
    ensures Reported(frames + [f], scope, level) == Reported(frames, scope, level) + CountIn(f.kv, scope, level)
  {
    hide CountIn;
    assert (frames + [f])[..|frames|] == frames;
  }

  /**
   From frames to frames: when no scope holds `|` or `;`, the counts that a mirror reads back from the
   thread's output for a scope and level, plus the one still pending, are the number of frames with that
   scope and level; and the mirror refuses no line of it.
   */
  lemma CountsReadBack(
    codec: TimeCodec, window: int, windowText: string, start: int, frames: seq<Frame>, clocks: seq<Stamp>,
    ticks: seq<Tick>, scope: string, level: Level)
    requires Lawful(codec) && |ticks| == |clocks| == |frames| && Bridge.Printable(codec, frames, clocks)
    requires forall i :: 0 <= i < |ticks| ==> Walks(ticks[i].order)
    requires WindowText(windowText)
    requires forall i :: 0 <= i < |frames| ==> '|' !in frames[i].scope && ';' !in frames[i].scope
    ensures
      var t := RunAll(window, start, Bridge.Printed(codec, frames, clocks), ticks);
      var parsed := Bridge.ParseAll(codec, EmitLines(t.out, windowText));
      && Bridge.Errors(parsed) == 0
      && Reported(Bridge.Frames(parsed), scope, level) + Pending(t.counts, PairKey(scope, level)) ==
         FramesWith(frames, scope, level)
  {
    hide Walks, RunAll, PairKey, Lawful, WindowText, Bridge.ParseAll, Bridge.Frames, Bridge.Errors, KeyOfSome, StampOfSome,
      CleanText, Formattable, OneLineFrame, EmitLines, Reported, Printed;
    var t := RunAll(window, start, Bridge.Printed(codec, frames, clocks), ticks);
    FramesConserved(codec, window, start, frames, clocks, ticks, scope, level);
    RunIsTraced(codec, window, start, frames, clocks, ticks);
    ReportedIsPrinted(codec, frames, t.out, windowText, scope, level);
  }
}

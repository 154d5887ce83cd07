/**
 crates/hawk_core/src/hawkframe.rs: the seven-column TSV frame, its parser and its printers.

 RFC 3339 text is handled by the `time` crate, so the two conversions are a parameter
 (`TimeCodec`) of which only `Lawful` is assumed.
 */
module HawkFrame {
  import opened Basics
  import opened Text
  import opened Severity
  import opened KvBag

  /** An `OffsetDateTime`: the instant in nanoseconds and the UTC offset it was written with. */
  datatype Stamp = Stamp(nanos: int, offsetS: int)

  /** `OffsetDateTime::parse` and `OffsetDateTime::format` with `Rfc3339`; both can fail. */
  datatype TimeCodec = TimeCodec(parse: string -> Option<Stamp>, format: Stamp -> Option<string>)

  predicate StampText(s: string) {
    s != "" && '0' <= s[0] <= '9' && forall c :: c in s ==> !IsSpace(c)
  }

  predicate Formattable(codec: TimeCodec, t: Stamp) {
    codec.format(t).Some?
  }

  /** What section 5.6 of RFC 3339 gives: printed stamps reparse, parsed stamps print. */
  ghost predicate Lawful(codec: TimeCodec) {
    && (forall t :: Formattable(codec, t) ==>
          StampText(codec.format(t).value) && codec.parse(codec.format(t).value) == Some(t))
    && (forall s :: codec.parse(s).Some? ==> Formattable(codec, codec.parse(s).value))
  }

  datatype Frame = Frame(
    ts: Option<Stamp>, kind: string, scope: string, id: string, level: Level, msg: string, kv: Bag)

  datatype ParseError =
    | Empty
    | TooFewColumns(found: nat)
    | BadTimestamp(raw: string)

  /** `Ok(Some(frame))`, `Ok(None)` and `Err(error)` of `parse_tsv_line`. */
  datatype Parsed = Accepted(frame: Frame) | Ignored | Rejected(error: ParseError)

  /** `trim_end_matches(['\n', '\r'])`. */
  function TrimEol(s: string): string {
    if s != "" && (s[|s| - 1] == '\n' || s[|s| - 1] == '\r') then TrimEol(s[..|s| - 1]) else s
  }

  predicate IsComment(line: string) {
    var s := TrimStart(line);
    s != "" && s[0] == '#'
  }

  function FrameOf(ts: Option<Stamp>, cols: seq<string>): Frame
    requires |cols| >= 7
  {
    Frame(ts, Trim(cols[1]), Trim(cols[2]), Trim(cols[3]), ParseLevel(cols[4]), Trim(cols[5]), KvOf(Trim(cols[6])))
  }

  function ParseColumns(codec: TimeCodec, cols: seq<string>): Parsed {
    if |cols| < 7 then Rejected(TooFewColumns(|cols|))
    else
      var rawTs := Trim(cols[0]);
      if rawTs == "" then Accepted(FrameOf(None, cols))
      else
        match codec.parse(rawTs)
        case Some(t) => Accepted(FrameOf(Some(t), cols))
        case None => Rejected(BadTimestamp(rawTs))
  }

  /** `parse_tsv_line`. */
  function Parse(codec: TimeCodec, text: string): Parsed {
    var line := TrimEol(text);
    if Trim(line) == "" || IsComment(line) then Ignored
    else ParseColumns(codec, Split(line, '\t'))
  }

  function StampColumn(codec: TimeCodec, t: Stamp): string {
    codec.format(t).UnwrapOr("")
  }

  function Columns(codec: TimeCodec, f: Frame, t: Stamp): seq<string> {
    [StampColumn(codec, t), f.kind, f.scope, f.id, f.level.AsStr(), f.msg, KvText(f.kv)]
  }

  /** The stamp a frame is printed with: its own, or the printer's clock. */
  function Stamped(f: Frame, now: Stamp): Stamp {
    f.ts.UnwrapOr(now)
  }

  /** `to_tsv_line`. */
  function ToTsvLine(codec: TimeCodec, f: Frame, now: Stamp): string {
    Join(Columns(codec, f, Stamped(f, now)), '\t')
  }

  /** `to_compact_line`: no bag, and no stamp is invented. */
  function ToCompactLine(codec: TimeCodec, f: Frame): string {
    var ts := match f.ts case Some(t) => StampColumn(codec, t) case None => "";
    Join([ts, f.kind, f.scope, f.id, f.level.AsStr(), f.msg], '\t')
  }

  // ----- Lines that start with a stamp

  lemma {:induction false} TrimEolAfterTab(a: string, b: string)
    ensures TrimEol(a + ['\t'] + b) == a + ['\t'] + TrimEol(b)
  {
    var s := a + ['\t'] + b;
    if b == "" {
      assert s[|s| - 1] == '\t';
    } else {
      assert s[|s| - 1] == b[|b| - 1];
      assert s[..|s| - 1] == a + ['\t'] + b[..|b| - 1];
      TrimEolAfterTab(a, b[..|b| - 1]);
    }
  }

  lemma {:induction false} TrimOfEol(line: string)
    ensures Trim(TrimEol(line)) == Trim(line)
  {
    hide Trim;
    if line != "" && (line[|line| - 1] == '\n' || line[|line| - 1] == '\r') {
      var n := |line| - 1;
      TrimOfEol(line[..n]);
      assert line == line[..n] + [line[n]];
      assert IsSpace('\n') && IsSpace('\r');
      TrimTrailing(line[..n], [line[n]]);
    }
  }

  /** Blanks around a text do not change whether it is a comment. */
  lemma SameOpening(before: string, t: string, left: string)
    requires Blank(before) && t != "" && !IsSpace(t[0])
    ensures Trim(before + t + left) != ""
    ensures IsComment(before + t + left) <==> t[0] == '#'
  {
    var whole := before + t + left;
    assert whole == before + (t + left);
    TrimStartSkips(before, t + left);
    assert TrimStart(t + left) == t + left;
    TrimBlank(whole);
    assert whole[|before|] == t[0];
  }

  lemma TrimEolTrimmed(s: string)
    requires Trimmed(s)
    ensures TrimEol(s) == s
  {
  }

  lemma StampTextTrimmed(ts: string)
    requires StampText(ts)
    ensures Trim(ts) == ts && '\t' !in ts && '\n' !in ts
  {
    assert ts[0] in ts && ts[|ts| - 1] in ts;
    TrimIdentity(ts);
    assert IsSpace('\t') && IsSpace('\n');
  }

  /** A line that opens with stamp text is neither blank nor a comment: its columns decide. */
  lemma ParseStampedLine(codec: TimeCodec, ts: string, rest: string)
    requires StampText(ts)
    ensures Parse(codec, ts + ['\t'] + rest) == ParseColumns(codec, [ts] + Split(TrimEol(rest), '\t'))
  {
    TrimEolAfterTab(ts, rest);
    var line := ts + ['\t'] + TrimEol(rest);
    assert line[0] == ts[0] && ts[0] in ts;
    TrimBlank(line);
    assert !Blank(line);
    assert TrimStart(line) == line;
    StampTextTrimmed(ts);
    SplitWhole(ts, '\t');
    SplitConcat(ts, TrimEol(rest), '\t');
  }

  /** Seven or more tab-free columns behind stamp text are parsed as they stand. */
  lemma ParseJoined(codec: TimeCodec, cols: seq<string>)
    requires |cols| >= 7 && StampText(cols[0]) && Trimmed(cols[|cols| - 1])
    requires forall i :: 0 <= i < |cols| ==> '\t' !in cols[i]
    ensures Parse(codec, Join(cols, '\t')) == ParseColumns(codec, cols)
  {
    hide Parse, ParseColumns, Split, TrimEol, StampText, Trimmed;
    var n := |cols| - 1;
    var rest := cols[1..];
    var head := cols[1..n];
    assert rest == head + [cols[n]];
    JoinConcat(head, [cols[n]], '\t');
    TrimEolAfterTab(Join(head, '\t'), cols[n]);
    TrimEolTrimmed(cols[n]);
    assert TrimEol(Join(rest, '\t')) == Join(rest, '\t');
    ParseStampedLine(codec, cols[0], Join(rest, '\t'));
    SplitJoin(rest, '\t');
    assert [cols[0]] + rest == cols;
  }

  lemma {:induction false} SplitJoinLength(parts: seq<string>, c: char)
    requires parts != []
    ensures |Split(Join(parts, c), c)| >= |parts|
  {
    if |parts| > 1 {
      SplitJoinLength(parts[1..], c);
      SplitConcat(parts[0], Join(parts[1..], c), c);
    }
  }

  /** Peel the stamp off a printed line and let the end-of-line trim reach only the bag. */
  lemma PrintedShape(codec: TimeCodec, f: Frame, t: Stamp)
    ensures
      var cols := Columns(codec, f, t);
      && Join(cols, '\t') == cols[0] + ['\t'] + Join(cols[1..], '\t')
      && TrimEol(Join(cols[1..], '\t')) == Join(cols[1..6] + [TrimEol(cols[6])], '\t')
  {
    var cols := Columns(codec, f, t);
    assert cols[1..] == cols[1..6] + [cols[6]];
    JoinConcat(cols[1..6], [cols[6]], '\t');
    JoinConcat(cols[1..6], [TrimEol(cols[6])], '\t');
    TrimEolAfterTab(Join(cols[1..6], '\t'), cols[6]);
  }

  /**
   Whatever the fields hold, tabs and line ends included, a printed frame is accepted again
   and carries the stamp it was printed with.
   */
  lemma PrintedIsAccepted(codec: TimeCodec, f: Frame, now: Stamp)
    requires Lawful(codec) && Formattable(codec, Stamped(f, now))
    ensures Parse(codec, ToTsvLine(codec, f, now)).Accepted?
    ensures Parse(codec, ToTsvLine(codec, f, now)).frame.ts == Some(Stamped(f, now))
  {
    var t := Stamped(f, now);
    var cols := Columns(codec, f, t);
    PrintedShape(codec, f, t);
    var rest := cols[1..6] + [TrimEol(cols[6])];
    ParseStampedLine(codec, cols[0], Join(cols[1..], '\t'));
    SplitJoinLength(rest, '\t');
    StampTextTrimmed(cols[0]);
  }

  // ----- Round trip

  ghost predicate CleanText(s: string) {
    Trimmed(s) && '\t' !in s
  }

  /** The frames that `parse_tsv_line` can return: trimmed, tab-free columns and a clean bag. */
  ghost predicate CleanFrame(f: Frame) {
    && CleanHead(f)
    && CleanBag(f.kv)
    && (forall k :: k in f.kv ==> '\t' !in k && '\t' !in f.kv[k])
  }

  /** What one print-and-reparse makes of a clean frame. */
  function Normal(f: Frame, now: Stamp): Frame {
    f.(ts := Some(Stamped(f, now)), kv := DropLost(f.kv))
  }

  ghost predicate CleanHead(f: Frame) {
    CleanText(f.kind) && CleanText(f.scope) && CleanText(f.id) && CleanText(f.msg)
  }

  lemma HeadColumns(codec: TimeCodec, f: Frame, t: Stamp)
    requires Lawful(codec) && Formattable(codec, t) && CleanHead(f)
    ensures forall i :: 0 <= i < 6 ==> CleanText(Columns(codec, f, t)[i])
  {
    var ts := StampColumn(codec, t);
    StampTextTrimmed(ts);
    TrimTrims(ts);
    LevelWord(f.level);
    TrimTrims(f.level.AsStr());
  }

  lemma {:induction false} TrimEolKeepsHead(s: string)
    requires s != "" && s[0] != '\n' && s[0] != '\r'
    ensures TrimEol(s) != "" && TrimEol(s)[0] == s[0]
  {
    if |s| > 1 {
      TrimEolKeepsHead(s[..|s| - 1]);
    }
  }

  /** A line that opens with something visible has a stamp, or is not accepted. */
  lemma OpensStamped(codec: TimeCodec, t: string)
    requires t != "" && !IsSpace(t[0]) && Parse(codec, t).Accepted?
    ensures Parse(codec, t).frame.ts.Some?
  {
    hide Trim, KvOf;
    var line := TrimEol(t);
    assert IsSpace('\n') && IsSpace('\r');
    TrimEolKeepsHead(t);
    var cols := Split(line, '\t');
    assert cols[0][0] == t[0];
    TrimBlank(cols[0]);
  }

  lemma PrintOpens(codec: TimeCodec, f: Frame, now: Stamp)
    requires Lawful(codec) && Formattable(codec, Stamped(f, now))
    ensures
      var line := ToTsvLine(codec, f, now);
      line != "" && !IsSpace(line[0]) && line[0] != '#'
  {
    hide KvText;
    var cols := Columns(codec, f, Stamped(f, now));
    assert StampText(cols[0]) && cols[0][0] in cols[0];
    assert Join(cols, '\t') == cols[0] + ['\t'] + Join(cols[1..], '\t');
  }

  ghost predicate TabFreeHead(f: Frame) {
    '\t' !in f.kind && '\t' !in f.scope && '\t' !in f.id && '\t' !in f.msg
  }

  /** Six tab-free columns, the first a stamp, stay the first six whatever follows them. */
  lemma HeadAndTail(codec: TimeCodec, head: seq<string>, tail: string)
    requires |head| == 6 && StampText(head[0]) && forall i :: 0 <= i < 6 ==> '\t' !in head[i]
    ensures Parse(codec, Join(head, '\t') + ['\t'] + tail) == ParseColumns(codec, head + Split(TrimEol(tail), '\t'))
  {
    hide Parse, ParseColumns, Split, TrimEol, StampText;
    var front := Join(head[1..], '\t');
    var rest := front + ['\t'] + tail;
    assert Join(head, '\t') + ['\t'] + tail == head[0] + ['\t'] + rest;
    ParseStampedLine(codec, head[0], rest);
    TrimEolAfterTab(front, tail);
    SplitConcat(front, TrimEol(tail), '\t');
    SplitJoin(head[1..], '\t');
    assert [head[0]] + (head[1..] + Split(TrimEol(tail), '\t')) == head + Split(TrimEol(tail), '\t');
  }

  /** A tab-free head keeps its six columns; all that the bag can do is add columns behind them. */
  lemma ReparseHead(codec: TimeCodec, f: Frame, now: Stamp)
    requires Lawful(codec) && Formattable(codec, Stamped(f, now)) && TabFreeHead(f)
    ensures
      var cols := Columns(codec, f, Stamped(f, now));
      Parse(codec, ToTsvLine(codec, f, now)) == ParseColumns(codec, cols[..6] + Split(TrimEol(cols[6]), '\t'))
  {
    hide Parse, ParseColumns, Split, TrimEol, KvText;
    var cols := Columns(codec, f, Stamped(f, now));
    StampTextTrimmed(cols[0]);
    LevelWord(f.level);
    HeadAndTail(codec, cols[..6], cols[6]);
    assert cols == cols[..6] + [cols[6]];
    JoinConcat(cols[..6], [cols[6]], '\t');
  }

  /** Whatever the bag holds, a clean head comes back whole. */
  lemma HeadRoundTrip(codec: TimeCodec, f: Frame, now: Stamp)
    requires Lawful(codec) && Formattable(codec, Stamped(f, now)) && CleanHead(f)
    ensures
      var p := Parse(codec, ToTsvLine(codec, f, now));
      p.Accepted? && p.frame.(kv := f.kv) == f.(ts := Some(Stamped(f, now)))
  {
    var t := Stamped(f, now);
    var cols := Columns(codec, f, t);
    ReparseHead(codec, f, now);
    HeadColumns(codec, f, t);
    forall i | 0 <= i < 6 ensures Trim(cols[i]) == cols[i] {
      TrimIdentity(cols[i]);
    }
    LevelRoundTrip(f.level);
  }

  /** A printed frame with a clean head has seven columns exactly when its bag prints no tab. */
  lemma HeadColumnCount(codec: TimeCodec, f: Frame, now: Stamp)
    requires Lawful(codec) && Formattable(codec, Stamped(f, now)) && CleanHead(f)
    ensures |Split(ToTsvLine(codec, f, now), '\t')| == 7 <==> '\t' !in KvText(f.kv)
  {
    var t := Stamped(f, now);
    var cols := Columns(codec, f, t);
    HeadColumns(codec, f, t);
    SplitJoin(cols[..6], '\t');
    assert cols == cols[..6] + [cols[6]];
    JoinConcat(cols[..6], [cols[6]], '\t');
    SplitConcat(Join(cols[..6], '\t'), cols[6], '\t');
    SplitOne(cols[6], '\t');
  }

  lemma CleanColumns(codec: TimeCodec, f: Frame, t: Stamp)
    requires Lawful(codec) && Formattable(codec, t) && CleanFrame(f)
    ensures forall i :: 0 <= i < 7 ==> CleanText(Columns(codec, f, t)[i])
  {
    HeadColumns(codec, f, t);
    KvRoundTripClean(f.kv);
    KvTextKeepsOut(f.kv, '\t');
  }

  lemma CleanPrintsSevenColumns(codec: TimeCodec, f: Frame, now: Stamp)
    requires Lawful(codec) && Formattable(codec, Stamped(f, now)) && CleanFrame(f)
    ensures Split(ToTsvLine(codec, f, now), '\t') == Columns(codec, f, Stamped(f, now))
  {
    CleanColumns(codec, f, Stamped(f, now));
    SplitJoin(Columns(codec, f, Stamped(f, now)), '\t');
  }

  lemma ReparseColumns(codec: TimeCodec, f: Frame, t: Stamp)
    requires Lawful(codec) && Formattable(codec, t) && CleanFrame(f)
    ensures ParseColumns(codec, Columns(codec, f, t)) == Accepted(f.(ts := Some(t), kv := DropLost(f.kv)))
  {
    var cols := Columns(codec, f, t);
    CleanColumns(codec, f, t);
    forall i | 0 <= i < 7 ensures Trim(cols[i]) == cols[i] {
      TrimIdentity(cols[i]);
    }
    LevelRoundTrip(f.level);
    KvRoundTripClean(f.kv);
    StampTextTrimmed(cols[0]);
  }

  lemma CleanRoundTrip(codec: TimeCodec, f: Frame, now: Stamp)
    requires Lawful(codec) && Formattable(codec, Stamped(f, now)) && CleanFrame(f)
    ensures Parse(codec, ToTsvLine(codec, f, now)) == Accepted(Normal(f, now))
  {
    var t := Stamped(f, now);
    var cols := Columns(codec, f, t);
    CleanColumns(codec, f, t);
    ReparseHead(codec, f, now);
    TrimEolTrimmed(cols[6]);
    SplitWhole(cols[6], '\t');
    assert cols[..6] + [cols[6]] == cols;
    ReparseColumns(codec, f, t);
  }

  lemma FrameOfIsClean(ts: Option<Stamp>, cols: seq<string>)
    requires |cols| >= 7 && forall i :: 0 <= i < |cols| ==> '\t' !in cols[i]
    ensures CleanFrame(FrameOf(ts, cols))
  {
    hide KvOf, Trim, Trimmed, CleanBag, ParseLevel;
    forall i | 0 <= i < 7 ensures CleanText(Trim(cols[i])) {
      TrimTrims(cols[i]);
    }
    KvOfClean(Trim(cols[6]));
  }

  /** Every frame that comes out of the parser is clean, and its stamp can be printed. */
  lemma ParsedIsClean(codec: TimeCodec, line: string)
    requires Lawful(codec) && Parse(codec, line).Accepted?
    ensures CleanFrame(Parse(codec, line).frame)
    ensures Parse(codec, line).frame.ts.Some? ==> Formattable(codec, Parse(codec, line).frame.ts.value)
  {
    var f := Parse(codec, line).frame;
    var cols := Split(TrimEol(line), '\t');
    assert f == FrameOf(f.ts, cols);
    forall i | 0 <= i < |cols| ensures '\t' !in cols[i] {
      SplitPieces(TrimEol(line), '\t', i);
    }
    FrameOfIsClean(f.ts, cols);
  }

  /**
   Frame round trip: whatever line was accepted, printing and reparsing keeps kind, scope, id,
   level, msg and the stamp (the printer's clock if there was none), and changes the bag only by
   the lost entry. The printed line has exactly seven columns.
   */
  lemma FrameRoundTrip(codec: TimeCodec, line: string, now: Stamp)
    requires Lawful(codec) && Formattable(codec, now)
    requires Parse(codec, line).Accepted?
    ensures
      var f := Parse(codec, line).frame;
      && Parse(codec, ToTsvLine(codec, f, now)) == Accepted(Normal(f, now))
      && |Split(ToTsvLine(codec, f, now), '\t')| == 7
  {
    ParsedIsClean(codec, line);
    CleanRoundTrip(codec, Parse(codec, line).frame, now);
    CleanPrintsSevenColumns(codec, Parse(codec, line).frame, now);
  }

  /** The lines seen on a chain of hops, each printing what it parsed from the line before. */
  function HopLines(codec: TimeCodec, line: string, clocks: seq<Stamp>): (lines: seq<string>)
    ensures |lines| <= |clocks|
    decreases |clocks|
  {
    match Parse(codec, line)
    case Accepted(f) =>
      if clocks == [] then []
      else
        var next := ToTsvLine(codec, f, clocks[0]);
        [next] + HopLines(codec, next, clocks[1..])
    case _ => []
  }

  lemma NormalIsFixed(codec: TimeCodec, f: Frame, now: Stamp, later: Stamp)
    requires Lawful(codec) && Formattable(codec, Stamped(f, now)) && CleanFrame(f)
    ensures CleanFrame(Normal(f, now)) && Normal(Normal(f, now), later) == Normal(f, now)
    ensures Parse(codec, ToTsvLine(codec, Normal(f, now), later)) == Accepted(Normal(f, now))
    ensures ToTsvLine(codec, Normal(f, now), later) == ToTsvLine(codec, Normal(f, now), now)
  {
    DropLostSettles(f.kv);
    var g := Normal(f, now);
    assert CleanFrame(g) && Normal(g, later) == g;
    assert Stamped(g, later) == Stamped(g, now) == Stamped(f, now);
    CleanRoundTrip(codec, g, later);
  }

  lemma {:induction false} HopsStaySettled(codec: TimeCodec, line: string, g: Frame, clocks: seq<Stamp>)
    requires Lawful(codec) && CleanFrame(g) && g.kv == DropLost(g.kv)
    requires g.ts.Some? && Formattable(codec, g.ts.value)
    requires Parse(codec, line) == Accepted(g)
    ensures |HopLines(codec, line, clocks)| == |clocks|
    ensures forall i :: 0 <= i < |clocks| ==> HopLines(codec, line, clocks)[i] == ToTsvLine(codec, g, g.ts.value)
    decreases |clocks|
  {
    hide Parse, ToTsvLine, CleanFrame;
    if clocks != [] {
      assert Normal(g, g.ts.value) == g;
      NormalIsFixed(codec, g, g.ts.value, clocks[0]);
      var next := ToTsvLine(codec, g, clocks[0]);
      HopsStaySettled(codec, next, g, clocks[1..]);
    }
  }

  /**
   Any number of hops: every hop is taken, from the first on each line parses to the same frame,
   and from the second on the text itself no longer changes.
   */
  lemma HopsSettle(codec: TimeCodec, line: string, clocks: seq<Stamp>)
    requires Lawful(codec) && Parse(codec, line).Accepted?
    requires clocks != [] && Formattable(codec, clocks[0])
    ensures
      var f := Parse(codec, line).frame;
      var lines := HopLines(codec, line, clocks);
      && |lines| == |clocks|
      && lines[0] == ToTsvLine(codec, f, clocks[0])
      && (forall i :: 0 <= i < |lines| ==> Parse(codec, lines[i]) == Accepted(Normal(f, clocks[0])))
      && (forall i :: 1 <= i < |lines| ==> lines[i] == ToTsvLine(codec, Normal(f, clocks[0]), clocks[0]))
  {
    hide Parse, ToTsvLine, CleanFrame;
    var f := Parse(codec, line).frame;
    var g := Normal(f, clocks[0]);
    ParsedIsClean(codec, line);
    CleanRoundTrip(codec, f, clocks[0]);
    NormalIsFixed(codec, f, clocks[0], g.ts.value);
    var next := ToTsvLine(codec, f, clocks[0]);
    HopsStaySettled(codec, next, g, clocks[1..]);
    var lines := HopLines(codec, line, clocks);
    assert lines == [next] + HopLines(codec, next, clocks[1..]);
    forall i | 1 <= i < |lines| ensures lines[i] == ToTsvLine(codec, g, clocks[0]) {
      assert lines[i] == HopLines(codec, next, clocks[1..])[i - 1];
    }
  }

  /** A column, a tab, and what follows. */
  function Tab(column: string, rest: string): string {
    column + ['\t'] + rest
  }

  /** The columns stand in the documented order: ts, kind, scope, id, level, msg, kv. */
  lemma ColumnOrder(
    codec: TimeCodec, t: Stamp, kind: string, scope: string, id: string, level: Level, msg: string, bag: string)
    requires Lawful(codec) && Formattable(codec, t)
    requires CleanText(kind) && CleanText(scope) && CleanText(id) && CleanText(msg) && CleanText(bag)
    ensures
      var line := Tab(codec.format(t).value, Tab(kind, Tab(scope, Tab(id, Tab(level.AsStr(), Tab(msg, bag))))));
      Parse(codec, line) == Accepted(Frame(Some(t), kind, scope, id, level, msg, KvOf(bag)))
  {
    hide Parse, KvOf, ParseLevel, Tab;
    var ts := codec.format(t).value;
    StampTextTrimmed(ts);
    LevelWord(level);
    LevelRoundTrip(level);
    SevenJoined(ts, kind, scope, id, level.AsStr(), msg, bag);
    ParseJoined(codec, [ts, kind, scope, id, level.AsStr(), msg, bag]);
    TrimIdentity(kind);
    TrimIdentity(scope);
    TrimIdentity(id);
    TrimIdentity(msg);
    TrimIdentity(bag);
  }

  lemma JoinTab(column: string, rest: seq<string>)
    requires rest != []
    ensures Join([column] + rest, '\t') == Tab(column, Join(rest, '\t'))
  {
    assert ([column] + rest)[1..] == rest;
  }

  lemma SevenJoined(a: string, b: string, c: string, d: string, e: string, f: string, g: string)
    ensures Join([a, b, c, d, e, f, g], '\t') == Tab(a, Tab(b, Tab(c, Tab(d, Tab(e, Tab(f, g))))))
  {
    hide Join, Tab;
    JoinSingle(g);
    JoinTab(f, [g]);
    JoinTab(e, [f, g]);
    JoinTab(d, [e, f, g]);
    JoinTab(c, [d, e, f, g]);
    JoinTab(b, [c, d, e, f, g]);
    JoinTab(a, [b, c, d, e, f, g]);
    assert [f] + [g] == [f, g] && [e] + [f, g] == [e, f, g] && [d] + [e, f, g] == [d, e, f, g];
    assert [c] + [d, e, f, g] == [c, d, e, f, g] && [b] + [c, d, e, f, g] == [b, c, d, e, f, g];
    assert [a] + [b, c, d, e, f, g] == [a, b, c, d, e, f, g];
  }

  /** The compact line of a stamped frame is its full line without the bag column. */
  lemma CompactIsPrefix(codec: TimeCodec, f: Frame, now: Stamp)
    requires f.ts.Some?
    ensures ToTsvLine(codec, f, now) == ToCompactLine(codec, f) + ['\t'] + KvText(f.kv)
  {
    hide KvText, Join;
    var cols := Columns(codec, f, f.ts.value);
    var head := [StampColumn(codec, f.ts.value), f.kind, f.scope, f.id, f.level.AsStr(), f.msg];
    assert cols == head + [cols[6]];
    JoinConcat(head, [cols[6]], '\t');
    JoinSingle(cols[6]);
  }

  /** The compact line of a frame without a stamp opens with a tab; the rest is as if it had one. */
  lemma CompactUnstamped(codec: TimeCodec, f: Frame, t: Stamp)
    requires f.ts.None?
    ensures StampColumn(codec, t) + ToCompactLine(codec, f) == ToCompactLine(codec, f.(ts := Some(t)))
  {
    var rest := [f.kind, f.scope, f.id, f.level.AsStr(), f.msg];
    assert ["", f.kind, f.scope, f.id, f.level.AsStr(), f.msg] == [""] + rest;
    assert [StampColumn(codec, t), f.kind, f.scope, f.id, f.level.AsStr(), f.msg] == [StampColumn(codec, t)] + rest;
    assert ([""] + rest)[1..] == rest && ([StampColumn(codec, t)] + rest)[1..] == rest;
  }

  lemma JoinSingle(s: string)
    ensures Join([s], '\t') == s
  {
  }

  // ----- One-line text

  lemma {:induction false} TrimEolKeepsOut(s: string)
    ensures forall c :: c in TrimEol(s) ==> c in s
  {
    if s != "" && (s[|s| - 1] == '\n' || s[|s| - 1] == '\r') {
      TrimEolKeepsOut(s[..|s| - 1]);
    }
  }

  ghost predicate OneLineFrame(f: Frame) {
    && '\n' !in f.kind && '\n' !in f.scope && '\n' !in f.id && '\n' !in f.msg
    && forall k :: k in f.kv ==> '\n' !in k && '\n' !in f.kv[k]
  }

  lemma FrameOfIsOneLine(ts: Option<Stamp>, cols: seq<string>)
    requires |cols| >= 7 && forall i :: 0 <= i < |cols| ==> '\n' !in cols[i]
    ensures OneLineFrame(FrameOf(ts, cols))
  {
    forall i | 0 <= i < 7 ensures '\n' !in Trim(cols[i]) {
      TrimTrims(cols[i]);
    }
    KvOfClean(Trim(cols[6]));
  }

  /** A frame read from one line has no line end inside any field. */
  lemma ParsedIsOneLine(codec: TimeCodec, line: string)
    requires Parse(codec, line).Accepted? && '\n' !in TrimEol(line)
    ensures OneLineFrame(Parse(codec, line).frame)
  {
    var f := Parse(codec, line).frame;
    var cols := Split(TrimEol(line), '\t');
    assert f == FrameOf(f.ts, cols);
    forall i | 0 <= i < |cols| ensures '\n' !in cols[i] {
      SplitPieces(TrimEol(line), '\t', i);
    }
    FrameOfIsOneLine(f.ts, cols);
  }

  lemma PrintsOneLine(codec: TimeCodec, f: Frame, now: Stamp)
    requires Lawful(codec) && Formattable(codec, Stamped(f, now)) && OneLineFrame(f)
    ensures '\n' !in ToTsvLine(codec, f, now)
  {
    var cols := Columns(codec, f, Stamped(f, now));
    StampTextTrimmed(cols[0]);
    LevelWord(f.level);
    KvTextKeepsOut(f.kv, '\n');
    JoinKeepsOut(cols, '\t', '\n');
  }
}

/** The output check of the smoke test (crates/hawk/src/doctor.rs:379-392) against the mirror's parser. */
module Smoke {
  import opened Text
  import opened HawkFrame

  /** The check of one output line: trimmed, then skipped or parsed. */
  predicate Passes(codec: TimeCodec, line: string) {
    var t := Trim(line);
    t == "" || t[0] == '#' || !Parse(codec, t).Rejected?
  }

  method CheckOutput(codec: TimeCodec, lines: seq<string>) returns (ok: bool)
    ensures ok <==> forall i :: 0 <= i < |lines| ==> Passes(codec, lines[i])
  {
    hide Parse;
    for i := 0 to |lines|
      invariant forall j :: 0 <= j < i ==> Passes(codec, lines[j])
    {
      var t := Trim(lines[i]);
      if t == "" || t[0] == '#' {
        continue;
      }
      match Parse(codec, t) {
        case Accepted(_) =>
        case Ignored =>
        case Rejected(_) =>
          assert !Passes(codec, lines[i]);
          return false;
      }
    }
    ok := true;
  }

  // ----- Splitting a line with blanks around it

  /** Behind a separator, at least the columns of the rest. */
  lemma {:induction false} SplitLonger(before: string, t: string, c: char)
    ensures |Split(before + t, c)| >= |Split(t, c)|
  {
    if before == "" {
      assert before + t == t;
    } else {
      assert (before + t)[1..] == before[1..] + t;
      SplitLonger(before[1..], t, c);
    }
  }

  /** The end-of-line trim takes only from the blank behind the text. */
  lemma {:induction false} TrimEolOfBlank(core: string, after: string) returns (left: string)
    requires Blank(after) && core != "" && !IsSpace(core[|core| - 1])
    ensures Blank(left) && TrimEol(core + after) == core + left
  {
    var s := core + after;
    if after == "" {
      assert s == core;
      left := "";
    } else if s[|s| - 1] == '\n' || s[|s| - 1] == '\r' {
      assert s[..|s| - 1] == core + after[..|after| - 1];
      left := TrimEolOfBlank(core, after[..|after| - 1]);
    } else {
      left := after;
    }
  }

  /** The first column of a line with blanks in front: the same stamp text, or no stamp at all. */
  lemma FirstColumn(before: string, t: string, left: string)
    requires Blank(before) && |Split(t, '\t')| >= 7
    ensures
      var cols := Split(before + t + left, '\t');
      && |cols| >= 7
      && (Trim(cols[0]) == Trim(Split(t, '\t')[0]) || Trim(cols[0]) == "")
  {
    hide Trim;
    var whole := before + t + left;
    assert whole == before + (t + left);
    SplitBack(t, left, '\t');
    if '\t' in before {
      SplitLonger(before, t + left, '\t');
      var i := Find(before, '\t');
      FindFirst(before, '\t');
      var head, rest := before[..i], before[i + 1..] + (t + left);
      assert whole == head + ['\t'] + rest;
      SplitConcat(head, rest, '\t');
      SplitWhole(head, '\t');
      TrimBlank(head);
    } else {
      SplitFront(before, t + left, '\t');
      TrimLeading(before, Split(t, '\t')[0]);
    }
  }

  lemma BlankEol(s: string)
    requires Blank(s)
    ensures Blank(TrimEol(s))
  {
    TrimEolKeepsOut(s);
    assert forall i :: 0 <= i < |TrimEol(s)| ==> TrimEol(s)[i] in s;
  }

  /**
   Smoke soundness: any output line the check accepts after trimming is also accepted, untrimmed, by
   the mirror's parser.
   */
  lemma SmokeSound(codec: TimeCodec, line: string)
    requires Passes(codec, line)
    ensures !Parse(codec, line).Rejected?
  {
    var before, after := TrimParts(line);
    var t := Trim(line);
    if t == "" {
      TrimBlank(line);
      BlankEol(line);
      TrimBlank(TrimEol(line));
    } else {
      var core := before + t;
      assert core[|core| - 1] == t[|t| - 1];
      var left := TrimEolOfBlank(core, after);
      assert TrimEol(line) == before + t + left;
      SameOpening(before, t, left);
      TrimIdentity(t);
      TrimEolTrimmed(t);
      if t[0] != '#' {
        SoundColumns(codec, before, t, left);
      }
    }
  }

  lemma SoundColumns(codec: TimeCodec, before: string, t: string, left: string)
    requires Blank(before) && Trimmed(t) && t != "" && t[0] != '#'
    requires TrimEol(t) == t && Trim(t) == t && !Parse(codec, t).Rejected?
    ensures !ParseColumns(codec, Split(before + t + left, '\t')).Rejected?
  {
    hide Trim, Split, FrameOf;
    assert !IsComment(t) by {
      assert TrimStart(t) == t;
    }
    FirstColumn(before, t, left);
  }

  // ----- The converse, exactly

  /** How many columns at the front hold nothing but blanks. */
  function LeadingBlank(cols: seq<string>): (a: nat)
    ensures a <= |cols|
  {
    if cols != [] && Blank(cols[0]) then 1 + LeadingBlank(cols[1..]) else 0
  }

  /** How many columns at the back hold nothing but blanks. */
  function TrailingBlank(cols: seq<string>): (b: nat)
    ensures b <= |cols|
  {
    if cols != [] && Blank(cols[|cols| - 1]) then 1 + TrailingBlank(cols[..|cols| - 1]) else 0
  }

  predicate Shows(cols: seq<string>) {
    exists i :: 0 <= i < |cols| && !Blank(cols[i])
  }

  /** A column in front does not change how many blank ones are at the back. */
  lemma {:induction false} TrailingOfTail(cols: seq<string>)
    requires cols != [] && Shows(cols[1..])
    ensures TrailingBlank(cols) == TrailingBlank(cols[1..])
  {
    var tail, n := cols[1..], |cols| - 1;
    assert tail[n - 1] == cols[n];
    if Blank(cols[n]) {
      var i :| 0 <= i < |tail| && !Blank(tail[i]);
      assert tail[..n - 1] == cols[..n][1..] && tail[..n - 1][i] == tail[i];
      TrailingOfTail(cols[..n]);
    }
  }

  /** With visible text in the first and in the last column, trimming takes no column away. */
  lemma TrimKeepsColumns(cols: seq<string>)
    requires cols != [] && !Blank(cols[0]) && !Blank(cols[|cols| - 1])
    requires forall i :: 0 <= i < |cols| ==> '\t' !in cols[i]
    ensures
      var got := Split(Trim(Join(cols, '\t')), '\t');
      |got| == |cols| && Trim(got[0]) == Trim(cols[0])
  {
    hide Trim;
    var s := Join(cols, '\t');
    var x, y := TrimParts(s);
    var t := Trim(s);
    EdgesAreTabFree(cols, x, t, y);
    SplitJoin(cols, '\t');
    assert s == x + (t + y);
    SplitFront(x, t + y, '\t');
    SplitEnd(t, y, '\t');
    var got := Split(t, '\t');
    TrimLeading(x, Split(t + y, '\t')[0]);
    if |got| == 1 {
      TrimTrailing(got[0], y);
    }
  }

  lemma FrontEdge(first: string, rest: string, x: string, u: string)
    requires first + rest == x + u && Blank(x) && !Blank(first) && '\t' !in first
    ensures '\t' !in x
  {
    var i :| 0 <= i < |first| && !IsSpace(first[i]);
    assert (x + u)[i] == first[i];
    assert x == (first + rest)[..|x|] == first[..|x|];
  }

  lemma BackEdge(u: string, y: string, rest: string, last: string)
    requires rest + last == u + y && Blank(y) && !Blank(last) && '\t' !in last
    ensures '\t' !in y
  {
    var j :| 0 <= j < |last| && !IsSpace(last[j]);
    assert (u + y)[|rest| + j] == last[j];
    assert y == (rest + last)[|u|..] == last[|last| - |y|..];
  }

  lemma EdgesAreTabFree(cols: seq<string>, x: string, t: string, y: string)
    requires cols != [] && !Blank(cols[0]) && !Blank(cols[|cols| - 1])
    requires forall i :: 0 <= i < |cols| ==> '\t' !in cols[i]
    requires Join(cols, '\t') == x + t + y && Blank(x) && Blank(y)
    ensures '\t' !in x && '\t' !in y
  {
    hide Blank, Join;
    var front, back := JoinEdges(cols, '\t');
    assert x + t + y == x + (t + y);
    FrontEdge(cols[0], front, x, t + y);
    BackEdge(x + t, y, back, cols[|cols| - 1]);
  }

  /** Trimming a line takes exactly the blank columns at either end with it. */
  lemma {:induction false} TrimColumns(cols: seq<string>)
    requires Shows(cols) && forall i :: 0 <= i < |cols| ==> '\t' !in cols[i]
    ensures LeadingBlank(cols) + TrailingBlank(cols) < |cols|
    ensures
      var got := Split(Trim(Join(cols, '\t')), '\t');
      && |got| == |cols| - LeadingBlank(cols) - TrailingBlank(cols)
      && Trim(got[0]) == Trim(cols[LeadingBlank(cols)])
    decreases |cols|
  {
    hide Trim, Split, Join, Blank;
    var i :| 0 <= i < |cols| && !Blank(cols[i]);
    var n := |cols| - 1;
    if Blank(cols[0]) {
      assert cols[1..][i - 1] == cols[i];
      TrimColumns(cols[1..]);
      TrailingOfTail(cols);
      BlankInFront(cols);
    } else if Blank(cols[n]) {
      assert cols[..n][i] == cols[i];
      TrimColumns(cols[..n]);
      BlankBehind(cols);
    } else {
      TrimKeepsColumns(cols);
    }
  }

  lemma BlankInFront(cols: seq<string>)
    requires |cols| > 1 && Blank(cols[0])
    ensures Trim(Join(cols, '\t')) == Trim(Join(cols[1..], '\t'))
  {
    hide Trim;
    assert IsSpace('\t');
    TrimLeading(cols[0] + ['\t'], Join(cols[1..], '\t'));
  }

  lemma BlankBehind(cols: seq<string>)
    requires |cols| > 1 && Blank(cols[|cols| - 1])
    ensures Trim(Join(cols, '\t')) == Trim(Join(cols[..|cols| - 1], '\t'))
  {
    hide Trim, Join;
    var n := |cols| - 1;
    JoinBack(cols[..n], cols[n]);
    assert cols == cols[..n] + [cols[n]];
    var after := ['\t'] + cols[n];
    assert Blank(after) by {
      assert IsSpace('\t');
    }
    TrimTrailing(Join(cols[..n], '\t'), after);
  }

  lemma JoinBack(cols: seq<string>, last: string)
    requires cols != []
    ensures Join(cols + [last], '\t') == Join(cols, '\t') + (['\t'] + last)
  {
    JoinConcat(cols, [last], '\t');
  }

  /** The columns that are left of a line with visible text when it is trimmed. */
  lemma TrimmedLine(line: string)
    requires Trim(TrimEol(line)) != ""
    ensures
      var cols := Split(TrimEol(line), '\t');
      && LeadingBlank(cols) + TrailingBlank(cols) < |cols|
      && |Split(Trim(line), '\t')| == |cols| - LeadingBlank(cols) - TrailingBlank(cols)
      && Trim(Split(Trim(line), '\t')[0]) == Trim(cols[LeadingBlank(cols)]) != ""
  {
    hide Trim, Split;
    var s := TrimEol(line);
    var cols := Split(s, '\t');
    TrimOfEol(line);
    JoinSplit(s, '\t');
    TrimBlank(s);
    if !Shows(cols) {
      assert IsSpace('\t');
      JoinBlank(cols, '\t');
    }
    forall i | 0 <= i < |cols| ensures '\t' !in cols[i] {
      SplitPieces(s, '\t', i);
    }
    TrimColumns(cols);
    LeadingEnds(cols);
    TrimBlank(cols[LeadingBlank(cols)]);
  }

  lemma {:induction false} LeadingEnds(cols: seq<string>)
    requires LeadingBlank(cols) < |cols|
    ensures !Blank(cols[LeadingBlank(cols)])
  {
    if Blank(cols[0]) {
      LeadingEnds(cols[1..]);
    }
  }

  /**
   Of the lines that the mirror accepts, the check passes exactly those that keep seven columns when the
   blank ones at either end are gone, and whose first visible column is then a stamp.
   */
  lemma SmokeExact(codec: TimeCodec, line: string)
    requires Parse(codec, line).Accepted?
    ensures
      var cols := Split(TrimEol(line), '\t');
      var a, b := LeadingBlank(cols), TrailingBlank(cols);
      && a + b < |cols|
      && (Passes(codec, line) <==>
            |cols| - a - b >= 7 && (a == 0 || codec.parse(Trim(cols[a])).Some?))
  {
    hide Split, FrameOf, LeadingBlank, TrailingBlank, Trim;
    var cols := Split(TrimEol(line), '\t');
    TrimmedLine(line);
    TrimTrims(line);
    var t := Trim(line);
    TrimIdentity(t);
    TrimEolTrimmed(t);
    SameComment(line);
    assert Parse(codec, t) == ParseColumns(codec, Split(t, '\t'));
  }

  lemma SameComment(line: string)
    requires Trim(TrimEol(line)) != "" && !IsComment(TrimEol(line))
    ensures Trim(line) != "" && Trim(line)[0] != '#' && !IsComment(Trim(line))
  {
    TrimOfEol(line);
    var s := TrimEol(line);
    var before, after := TrimParts(s);
    SameOpening(before, Trim(s), after);
    assert TrimStart(Trim(s)) == Trim(s);
  }

  /** So a line of seven columns passes exactly if it has a stamp and a bag. */
  lemma SmokeSevenColumns(codec: TimeCodec, line: string)
    requires Parse(codec, line).Accepted? && |Split(TrimEol(line), '\t')| == 7
    ensures
      var cols := Split(TrimEol(line), '\t');
      Passes(codec, line) <==> !Blank(cols[0]) && !Blank(cols[6])
  {
    hide Parse, Passes, Trim, Split, TrimEol;
    SmokeExact(codec, line);
  }

  /** The lines refused for want of a stamp: any unstamped line, whatever its visible columns hold. */
  lemma SmokeRefusesUnstamped(codec: TimeCodec, visible: seq<string>)
    requires |visible| == 6 && forall i :: 0 <= i < 6 ==> '\t' !in visible[i]
    requires Trimmed(visible[0]) && visible[0] != "" && visible[0][0] != '#'
    requires Trimmed(visible[5]) && visible[5] != ""
    ensures
      var line := Join([""] + visible, '\t');
      Parse(codec, line).Accepted? && !Passes(codec, line)
  {
    hide Passes, FrameOf, Trim;
    var cols := [""] + visible;
    assert cols[1..] == visible;
    var t := Join(visible, '\t');
    assert visible == visible[..5] + [visible[5]];
    JoinConcat(visible[..5], [visible[5]], '\t');
    UnstampedLine(visible[0], t);
    assert Join(cols, '\t') == "" + ['\t'] + t;
    SplitJoin(cols, '\t');
    TrimBlank("");
    SmokeSevenColumns(codec, Join(cols, '\t'));
  }

  lemma UnstampedLine(kind: string, t: string)
    requires kind != "" && !IsSpace(kind[0]) && kind[0] != '#'
    requires kind <= t && !IsSpace(t[|t| - 1])
    ensures
      var line := "" + ['\t'] + t;
      TrimEol(line) == line && Trim(line) != "" && !IsComment(line)
  {
    hide Trim;
    var line := "" + ['\t'] + t;
    assert t[0] == kind[0];
    assert line == "\t" + t + "";
    SameOpening("\t", t, "");
    TrimEolTrimmed(t);
    TrimEolAfterTab("", t);
  }
}

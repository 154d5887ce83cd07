/**
 Lines that are cut short, by a tab in a value or by the end of the stream: what `parse_tsv_line`
 (crates/hawk_core/src/hawkframe.rs:35-82) makes of them.
 */
module Cuts {
  import opened Basics
  import opened Text
  import opened Ordering
  import opened Severity
  import opened KvBag
  import opened HawkFrame

  // ----- Rereading any printed frame, whatever its fields hold

  lemma {:induction false} EolTail(s: string) returns (after: string)
    ensures s == TrimEol(s) + after && Blank(after) && '\t' !in after
  {
    if s != "" && (s[|s| - 1] == '\n' || s[|s| - 1] == '\r') {
      var n := |s| - 1;
      var rest := EolTail(s[..n]);
      after := rest + [s[n]];
      assert IsSpace('\n') && IsSpace('\r');
      assert s == s[..n] + [s[n]];
    } else {
      after := "";
    }
  }

  /** The end-of-line trim takes no column away, and from the last one only blanks. */
  lemma EolPieces(s: string)
    ensures
      var a, b := Split(TrimEol(s), '\t'), Split(s, '\t');
      && |a| == |b| && a[..|a| - 1] == b[..|b| - 1]
      && Trim(a[|a| - 1]) == Trim(b[|b| - 1])
  {
    hide Split, Trim, TrimEol;
    var after := EolTail(s);
    var a := Split(TrimEol(s), '\t');
    SplitEnd(TrimEol(s), after, '\t');
    TrimTrailing(a[|a| - 1], after);
  }

  // ----- What any line means

  /** A column: a text without blanks at its ends, and the blanks around it. */
  datatype Padded = Padded(before: string, text: string, after: string) {
    predicate Valid() {
      && Blank(before) && Blank(after) && Trimmed(text)
      && '\t' !in before && '\t' !in text && '\t' !in after
    }

    function Column(): string {
      before + text + after
    }
  }

  function ColumnsOf(cells: seq<Padded>): seq<string> {
    seq(|cells|, i requires 0 <= i < |cells| => cells[i].Column())
  }

  predicate AllValid(cells: seq<Padded>) {
    forall i :: 0 <= i < |cells| ==> cells[i].Valid()
  }

  /** The line that the cells make; a line end is a blank behind the last of them. */
  function LineOf(cells: seq<Padded>): string {
    Join(ColumnsOf(cells), '\t')
  }

  lemma Cells(cells: seq<Padded>)
    requires AllValid(cells)
    ensures forall i :: 0 <= i < |cells| ==> '\t' !in ColumnsOf(cells)[i] && Trim(ColumnsOf(cells)[i]) == cells[i].text
  {
    hide Trim, Blank, Trimmed;
    forall i | 0 <= i < |cells| ensures '\t' !in ColumnsOf(cells)[i] && Trim(ColumnsOf(cells)[i]) == cells[i].text {
      assert cells[i].Valid();
      TrimUnique(cells[i].before, cells[i].text, cells[i].after);
    }
  }

  /** Every line is made of such cells. */
  lemma LineHasCells(line: string) returns (cells: seq<Padded>)
    ensures cells != [] && AllValid(cells) && LineOf(cells) == line
  {
    hide Split, Join, Trim;
    var cols := Split(line, '\t');
    JoinSplit(line, '\t');
    forall i | 0 <= i < |cols| ensures '\t' !in cols[i] {
      SplitPieces(line, '\t', i);
    }
    cells := CellsOf(cols);
  }

  lemma {:induction false} CellsOf(cols: seq<string>) returns (cells: seq<Padded>)
    requires forall i :: 0 <= i < |cols| ==> '\t' !in cols[i]
    ensures AllValid(cells) && ColumnsOf(cells) == cols
  {
    if cols == [] {
      cells := [];
    } else {
      hide Blank, Trimmed, Trim;
      var n := |cols| - 1;
      var front := CellsOf(cols[..n]);
      var before, after := TrimParts(cols[n]);
      var cell := Padded(before, Trim(cols[n]), after);
      assert cell.Column() == cols[n] && cell.Valid();
      cells := front + [cell];
      assert ColumnsOf(cells) == ColumnsOf(front) + [cols[n]];
      assert cols == cols[..n] + [cols[n]];
    }
  }

  /** Where a line shows something first, and whether that opens a comment. */
  lemma Opening(pre: string, t: string, rest: string)
    requires Blank(pre) && t != "" && !IsSpace(t[0])
    ensures
      var line := TrimEol(pre + t + rest);
      Trim(line) != "" && (IsComment(line) <==> t[0] == '#')
  {
    hide Trim, TrimEol, IsComment;
    var s := pre + t + rest;
    var after := EolTail(s);
    var line, n := TrimEol(s), |pre|;
    assert s[n] == t[0];
    assert n < |line|;
    assert line == s[..|line|];
    assert line[..n] == s[..n] == pre && line[n] == t[0];
    assert line == pre + [t[0]] + line[n + 1..];
    SameOpening(pre, [t[0]], line[n + 1..]);
  }

  lemma OpeningOfCells(cells: seq<Padded>, k: nat)
    requires AllValid(cells) && k < |cells| && cells[k].text != "" && forall j :: 0 <= j < k ==> cells[j].text == ""
    ensures
      var line := TrimEol(LineOf(cells));
      Trim(line) != "" && (IsComment(line) <==> cells[k].text[0] == '#')
  {
    hide Trim, TrimEol, IsComment, Join;
    var cols, cell := ColumnsOf(cells), cells[k];
    assert cell.Valid();
    var front, back := JoinEdges(cols[k..], '\t');
    assert cols[k..][0] == cols[k] == cell.before + cell.text + cell.after;
    assert IsSpace('\t');
    forall j | 0 <= j < k ensures Blank(cols[..k][j]) {
      assert cells[j].Valid() && cols[..k][j] == cells[j].before + "" + cells[j].after;
    }
    JoinBlank(cols[..k], '\t');
    var pre := if k == 0 then cell.before else Join(cols[..k], '\t') + ['\t'] + cell.before;
    if k > 0 {
      JoinConcat(cols[..k], cols[k..], '\t');
      assert cols == cols[..k] + cols[k..];
    } else {
      assert cols[0..] == cols;
    }
    assert LineOf(cells) == pre + cell.text + (cell.after + front);
    Opening(pre, cell.text, cell.after + front);
  }

  /** A line without anything to see is ignored. */
  lemma BlankLine(codec: TimeCodec, cells: seq<Padded>)
    requires AllValid(cells) && forall j :: 0 <= j < |cells| ==> cells[j].text == ""
    ensures Parse(codec, LineOf(cells)) == Ignored
  {
    hide Trim, TrimEol, IsComment, ParseColumns, Join;
    var cols := ColumnsOf(cells);
    assert IsSpace('\t');
    forall j | 0 <= j < |cells| ensures Blank(cols[j]) {
      assert cells[j].Valid() && cols[j] == cells[j].before + "" + cells[j].after;
    }
    JoinBlank(cols, '\t');
    TrimBlank(LineOf(cells));
    TrimOfEol(LineOf(cells));
  }

  /**
   What any line means, stamped or not, with blanks around every column and any number of columns behind
   the bag: `k` is the first column that shows something. A `#` there makes a comment. Otherwise fewer
   than seven columns are an error that counts them; a first column that is neither blank nor a stamp is
   an error that quotes it; and the frame has each field from its own column, in the documented order.
   */
  lemma LineMeaning(codec: TimeCodec, cells: seq<Padded>, k: nat)
    requires AllValid(cells) && k < |cells| && cells[k].text != "" && forall j :: 0 <= j < k ==> cells[j].text == ""
    ensures
      var p := Parse(codec, LineOf(cells));
      if cells[k].text[0] == '#' then p == Ignored
      else if |cells| < 7 then p == Rejected(TooFewColumns(|cells|))
      else if cells[0].text != "" && codec.parse(cells[0].text).None? then p == Rejected(BadTimestamp(cells[0].text))
      else
        && p.Accepted?
        && p.frame.ts == (if cells[0].text == "" then None else codec.parse(cells[0].text))
        && p.frame.kind == cells[1].text && p.frame.scope == cells[2].text && p.frame.id == cells[3].text
        && p.frame.level == ParseLevel(cells[4].text) && p.frame.msg == cells[5].text && p.frame.kv == KvOf(cells[6].text)
  {
    hide Trim, TrimEol, IsComment, Join, KvOf, ParseLevel, Split, AllValid;
    var cols, line := ColumnsOf(cells), LineOf(cells);
    OpeningOfCells(cells, k);
    Cells(cells);
    SplitJoin(cols, '\t');
    EolPieces(line);
    if |cells| >= 7 && cells[k].text[0] != '#' {
      var got := Split(TrimEol(line), '\t');
      SevenPieces(got, cols);
      LevelOfTrimmed(got[4]);
      LevelOfTrimmed(cells[4].text);
    }
  }

  lemma SevenPieces(a: seq<string>, b: seq<string>)
    requires |a| == |b| >= 7 && a[..|a| - 1] == b[..|b| - 1] && Trim(a[|a| - 1]) == Trim(b[|b| - 1])
    ensures forall i :: 0 <= i < 7 ==> Trim(a[i]) == Trim(b[i])
  {
    hide Trim;
    assert forall i :: 0 <= i < |a| - 1 ==> a[i] == a[..|a| - 1][i] == b[..|b| - 1][i] == b[i];
  }

  lemma LevelOfTrimmed(s: string)
    ensures ParseLevel(Trim(s)) == ParseLevel(s)
  {
    TrimTrims(s);
    TrimIdentity(Trim(s));
  }

  /** A stamp that cannot be printed is lost: the line reads as one without a stamp. */
  lemma UnprintableStamp(codec: TimeCodec, f: Frame, now: Stamp)
    requires !Formattable(codec, Stamped(f, now)) && CleanFrame(f) && f.kind != "" && f.kind[0] != '#'
    ensures Parse(codec, ToTsvLine(codec, f, now)) == Accepted(f.(ts := None, kv := DropLost(f.kv)))
  {
    hide Parse, KvText, KvOf, ParseLevel, CleanBag, Join;
    var cols := Columns(codec, f, Stamped(f, now));
    CleanCells(f);
    assert forall i :: 0 <= i < 7 ==> Trimmed(cols[i]) && '\t' !in cols[i];
    var cells := Bare(cols);
    LineMeaning(codec, cells, 1);
    KvRoundTripClean(f.kv);
    LevelRoundTrip(f.level);
  }

  /** Columns without blanks around them. */
  lemma Bare(cols: seq<string>) returns (cells: seq<Padded>)
    requires forall i :: 0 <= i < |cols| ==> Trimmed(cols[i]) && '\t' !in cols[i]
    ensures |cells| == |cols| && AllValid(cells) && LineOf(cells) == Join(cols, '\t')
    ensures forall i :: 0 <= i < |cols| ==> cells[i].text == cols[i]
  {
    hide Join, Trimmed;
    cells := seq(|cols|, i requires 0 <= i < |cols| => Padded("", cols[i], ""));
    assert forall i :: 0 <= i < |cols| ==> "" + cols[i] + "" == cols[i];
    assert ColumnsOf(cells) == cols;
  }

  lemma CleanCells(f: Frame)
    requires CleanFrame(f)
    ensures Trimmed(f.kind) && Trimmed(f.scope) && Trimmed(f.id) && Trimmed(f.msg) && Trimmed(f.level.AsStr()) && Trimmed(KvText(f.kv))
    ensures '\t' !in f.kind && '\t' !in f.scope && '\t' !in f.id && '\t' !in f.msg && '\t' !in f.level.AsStr()
    ensures '\t' !in KvText(f.kv)
  {
    hide KvText, CleanBag;
    LevelWord(f.level);
    TrimTrims(f.level.AsStr());
    KvTextKeepsOut(f.kv, '\t');
    KvRoundTripClean(f.kv);
  }

  /** The columns of a printed frame behind its stamp, as a reader splits them: tabs in a field make more. */
  function PrintedColumns(f: Frame): (cols: seq<string>)
    ensures |cols| >= 6
  {
    var fields := [f.kind, f.scope, f.id, f.level.AsStr(), f.msg, KvText(f.kv)];
    SplitJoinLength(fields, '\t');
    Split(Join(fields, '\t'), '\t')
  }

  /** Any printed frame is reread from the first six of them. */
  lemma RereadColumns(codec: TimeCodec, f: Frame, now: Stamp)
    requires Lawful(codec) && Formattable(codec, Stamped(f, now))
    ensures
      var cols := PrintedColumns(f);
      Parse(codec, ToTsvLine(codec, f, now)) ==
      Accepted(Frame(Some(Stamped(f, now)), Trim(cols[0]), Trim(cols[1]), Trim(cols[2]),
                     ParseLevel(cols[3]), Trim(cols[4]), KvOf(cols[5])))
  {
    hide Parse, KvText, KvOf, ParseLevel, Trim, Split, TrimEol;
    var fields := [f.kind, f.scope, f.id, f.level.AsStr(), f.msg, KvText(f.kv)];
    var all := Columns(codec, f, Stamped(f, now));
    assert all[1..] == fields;
    var rest := Join(fields, '\t');
    assert ToTsvLine(codec, f, now) == all[0] + ['\t'] + rest;
    StampTextTrimmed(all[0]);
    ParseStampedLine(codec, all[0], rest);
    EolPieces(rest);
    SplitJoinLength(fields, '\t');
    var a, b := Split(TrimEol(rest), '\t'), Split(rest, '\t');
    SixPieces(a, b);
    KvOfTrim(a[5]);
    KvOfTrim(b[5]);
  }

  lemma SixPieces(a: seq<string>, b: seq<string>)
    requires |a| == |b| >= 6 && a[..|a| - 1] == b[..|b| - 1] && Trim(a[|a| - 1]) == Trim(b[|b| - 1])
    ensures a[..5] == b[..5] && Trim(a[5]) == Trim(b[5])
  {
    hide Trim;
    assert forall i :: 0 <= i < |a| - 1 ==> a[i] == a[..|a| - 1][i] == b[..|b| - 1][i] == b[i];
  }

  // ----- Up to a tab

  /** What is left of a text when a tab ends it. */
  function UpToTab(text: string): string {
    Split(text, '\t')[0]
  }

  lemma UpToTabIs(front: string, rest: string)
    requires '\t' !in front
    ensures UpToTab(front + ['\t'] + rest) == front
  {
    hide Split;
    SplitConcat(front, rest, '\t');
    SplitWhole(front, '\t');
  }

  lemma UpToTabParts(text: string) returns (rest: string)
    ensures '\t' !in UpToTab(text)
    ensures '\t' !in text ==> UpToTab(text) == text
    ensures '\t' in text ==> text == UpToTab(text) + ['\t'] + rest
  {
    hide Split, UpToTab;
    if '\t' in text {
      var i := Find(text, '\t');
      FindFirst(text, '\t');
      rest := text[i + 1..];
      assert text == text[..i] + ['\t'] + rest;
      UpToTabIs(text[..i], rest);
    } else {
      rest := "";
      UpToTabWhole(text);
    }
  }

  lemma UpToTabWhole(text: string)
    requires '\t' !in text
    ensures UpToTab(text) == text
  {
    SplitWhole(text, '\t');
  }

  /** A tab-free head stays in its columns, and the bag is read up to its first tab. */
  lemma TabFreeColumns(f: Frame)
    requires TabFreeHead(f)
    ensures PrintedColumns(f)[..5] == [f.kind, f.scope, f.id, f.level.AsStr(), f.msg]
    ensures PrintedColumns(f)[5] == UpToTab(KvText(f.kv))
  {
    hide KvText, Split;
    var head, bag := [f.kind, f.scope, f.id, f.level.AsStr(), f.msg], KvText(f.kv);
    LevelWord(f.level);
    assert [f.kind, f.scope, f.id, f.level.AsStr(), f.msg, bag] == head + [bag];
    JoinConcat(head, [bag], '\t');
    SplitConcat(Join(head, '\t'), bag, '\t');
    SplitJoin(head, '\t');
  }

  lemma CutReparse(codec: TimeCodec, f: Frame, now: Stamp)
    requires Lawful(codec) && Formattable(codec, Stamped(f, now)) && TabFreeHead(f)
    ensures
      var p := Parse(codec, ToTsvLine(codec, f, now));
      p.Accepted? && p.frame.ts == Some(Stamped(f, now)) && p.frame.kv == KvOf(UpToTab(KvText(f.kv)))
  {
    hide Parse, ToTsvLine, KvText, KvOf, ParseLevel, Trim, UpToTab, PrintedColumns;
    RereadColumns(codec, f, now);
    TabFreeColumns(f);
  }

  /** A tab in the message pushes the bag out of its column. */
  lemma MessageColumns(f: Frame)
    requires '\t' !in f.kind && '\t' !in f.scope && '\t' !in f.id && '\t' in f.msg
    ensures |Split(f.msg, '\t')| > 1 && PrintedColumns(f)[5] == Split(f.msg, '\t')[1]
  {
    hide KvText, Split;
    var head, tail := [f.kind, f.scope, f.id, f.level.AsStr()], [f.msg, KvText(f.kv)];
    LevelWord(f.level);
    assert [f.kind, f.scope, f.id, f.level.AsStr(), f.msg, KvText(f.kv)] == head + tail;
    JoinConcat(head, tail, '\t');
    SplitConcat(Join(head, '\t'), Join(tail, '\t'), '\t');
    SplitJoin(head, '\t');
    SplitConcat(f.msg, KvText(f.kv), '\t');
    SplitOne(f.msg, '\t');
    assert tail[1..] == [KvText(f.kv)];
  }

  // ----- A printed bag up to its first tab

  lemma JoinCut(pre: seq<string>, a: string, b: string, post: seq<string>) returns (rest: string)
    ensures Join(pre + [a + b] + post, ';') == Join(pre + [a], ';') + b + rest
  {
    hide Join;
    var mid := pre + [a + b];
    if post == [] {
      assert mid + post == mid;
      rest := "";
    } else {
      JoinConcat(mid, post, ';');
      rest := [';'] + Join(post, ';');
    }
    JoinLast(pre, a);
    JoinLast(pre, a + b);
  }

  lemma JoinLast(pre: seq<string>, a: string)
    ensures Join(pre + [a], ';') == if pre == [] then a else Join(pre, ';') + [';'] + a
  {
    if pre == [] {
      assert pre + [a] == [a];
    } else {
      JoinConcat(pre, [a], ';');
    }
  }

  lemma CutPart(bad: string, front: string, back: string)
    ensures Part(bad, front + ['\t'] + back) == (bad + "=" + front) + (['\t'] + back)
  {
    assert (front + ['\t'] + back)[|front|] == '\t';
    assert forall i :: 0 <= i < 4 ==> "true"[i] != '\t';
    assert front + ['\t'] + back != "true";
  }

  lemma PartTabFree(key: string, value: string)
    requires '\t' !in key && '\t' !in value
    ensures '\t' !in Part(key, value)
  {
  }

  /** The list that the parts before a tabbed value, and that value up to its tab, make. */
  lemma CutText(pre: seq<string>, bad: string, value: string, post: seq<string>)
    requires '\t' in value && '\t' !in bad && forall i :: 0 <= i < |pre| ==> '\t' !in pre[i]
    ensures UpToTab(Join(pre + [Part(bad, value)] + post, ';')) == Join(pre + [bad + "=" + UpToTab(value)], ';')
  {
    hide Join, UpToTab, Part;
    var back := UpToTabParts(value);
    var front := UpToTab(value);
    var cut := bad + "=" + front;
    CutPart(bad, front, back);
    var rest := JoinCut(pre, cut, ['\t'] + back, post);
    var pieces := pre + [cut];
    assert '\t' !in cut;
    JoinKeepsOut(pieces, ';', '\t');
    assert Join(pieces, ';') + (['\t'] + back) + rest == Join(pieces, ';') + ['\t'] + (back + rest);
    UpToTabIs(Join(pieces, ';'), back + rest);
  }

  /** The keys printed before `bad`, if `before` lists them in order. */
  lemma KeysBefore(keys: set<string>, bad: string, before: seq<string>)
    requires bad in keys && Distinct(before) && (forall i, j :: 0 <= i < j < |before| ==> Le(before[i], before[j]))
    requires forall k :: k in before <==> k in keys && k != bad && Le(k, bad)
    ensures
      var s := SortedKeys(keys);
      |before| < |s| && s[..|before|] == before && s[|before|] == bad
  {
    hide SortedKeys, Le;
    var s := SortedKeys(keys);
    assert bad in s;
    var i :| 0 <= i < |s| && s[i] == bad;
    var front := s[..i];
    forall k ensures k in front <==> k in before {
      FrontKeys(keys, i, k);
    }
    var set1 := set k | k in front;
    SortedKeysUnique(set1, front);
    SortedKeysUnique(set1, before);
  }

  /**
   A printed bag up to its first tab: what prints before the key that holds it, and that entry up to the
   tab.
   */
  lemma BagUpToTab(kv: Bag, bad: string, before: seq<string>)
    requires bad in kv && '\t' in kv[bad] && '\t' !in bad
    requires Distinct(before) && (forall i, j :: 0 <= i < j < |before| ==> Le(before[i], before[j]))
    requires forall k :: k in before <==> k in kv && k != bad && Le(k, bad)
    requires forall k :: k in before ==> '\t' !in k && '\t' !in kv[k]
    ensures UpToTab(KvText(kv)) == Join(Parts(before, kv) + [bad + "=" + UpToTab(kv[bad])], ';')
  {
    hide SortedKeys, Le, Join, UpToTab, Part;
    var keys, n := SortedKeys(kv.Keys), |before|;
    KeysBefore(kv.Keys, bad, before);
    var parts := Parts(keys, kv);
    assert forall i :: 0 <= i < |keys| ==> keys[i] in keys;
    assert parts[..n] == Parts(before, kv);
    assert parts == parts[..n] + [Part(bad, kv[bad])] + parts[n + 1..];
    forall i | 0 <= i < n ensures '\t' !in parts[..n][i] {
      assert before[i] in before;
      PartTabFree(before[i], kv[before[i]]);
    }
    CutText(parts[..n], bad, kv[bad], parts[n + 1..]);
  }

  /** A key that no piece gives is not in the bag. */
  lemma NobodyGives(pieces: seq<string>, key: string)
    requires pieces != [] && forall i :: 0 <= i < |pieces| ==> ';' !in pieces[i] && !Gives(EntryOf(pieces[i]), key)
    ensures key !in KvOf(Join(pieces, ';'))
  {
    hide EntryOf, KvOf, Build, Join, Gives;
    SplitJoin(pieces, ';');
    KvOfBuild(Join(pieces, ';'));
    var entries := Entries(pieces);
    if key in Build(entries) {
      var i := LastGiver(entries, key);
    }
  }

  // ----- The start of a printed line

  /** The printed columns in front of the bag, each with its tab. */
  function HeadText(codec: TimeCodec, f: Frame, now: Stamp): string {
    Join(Columns(codec, f, Stamped(f, now))[..6], '\t') + ['\t']
  }

  lemma TextParts(codec: TimeCodec, f: Frame, now: Stamp)
    ensures ToTsvLine(codec, f, now) == HeadText(codec, f, now) + KvText(f.kv)
  {
    hide KvText;
    var cols := Columns(codec, f, Stamped(f, now));
    assert cols == cols[..6] + [cols[6]];
    JoinConcat(cols[..6], [cols[6]], '\t');
  }

  /** A piece of a stamped line that has a tab opens with the stamp. */
  lemma StampOfPiece(ts: string, rest: string, text: string)
    requires '\t' !in ts && text <= ts + ['\t'] + rest && '\t' in text
    ensures ts + ['\t'] <= text
  {
    var i :| 0 <= i < |text| && text[i] == '\t';
    var whole := ts + ['\t'] + rest;
    assert whole[i] == '\t';
    assert i >= |ts|;
    assert text == whole[..|text|];
  }

  lemma FewColumns(codec: TimeCodec, text: string)
    ensures Parse(codec, text).Accepted? ==> |Split(text, '\t')| >= 7
  {
    hide Split, TrimEol, Trim, FrameOf;
    EolPieces(text);
  }

  lemma ManyColumns(codec: TimeCodec, f: Frame, now: Stamp, text: string)
    requires Lawful(codec) && Formattable(codec, Stamped(f, now)) && text <= ToTsvLine(codec, f, now)
    requires |Split(text, '\t')| >= 7
    ensures Parse(codec, text).Accepted?
  {
    hide Parse, Split, TrimEol, Trim, KvText, FrameOf;
    var cols := Columns(codec, f, Stamped(f, now));
    var ts := cols[0];
    StampTextTrimmed(ts);
    assert ToTsvLine(codec, f, now) == ts + ['\t'] + Join(cols[1..], '\t');
    SplitOne(text, '\t');
    StampOfPiece(ts, Join(cols[1..], '\t'), text);
    var rest := text[|ts| + 1..];
    assert text == ts + ['\t'] + rest;
    ParseStampedLine(codec, ts, rest);
    SplitConcat(ts, rest, '\t');
    SplitWhole(ts, '\t');
    EolPieces(rest);
  }

  /** With a tab of a tab-free head missing there are too few columns. */
  lemma ShortPiece(head: seq<string>, text: string)
    requires |head| == 6 && (forall i :: 0 <= i < 6 ==> '\t' !in head[i]) && text <= Join(head, '\t')
    ensures |Split(text, '\t')| < 7
  {
    hide Split, Join;
    var whole := Join(head, '\t');
    assert whole == text + whole[|text|..];
    SplitBack(text, whole[|text|..], '\t');
    SplitJoin(head, '\t');
  }

  lemma HeadIsTabFree(codec: TimeCodec, f: Frame, t: Stamp)
    requires Lawful(codec) && Formattable(codec, t) && TabFreeHead(f)
    ensures
      var head := Columns(codec, f, t)[..6];
      StampText(head[0]) && forall i :: 0 <= i < 6 ==> '\t' !in head[i]
  {
    hide KvText;
    StampTextTrimmed(StampColumn(codec, t));
    LevelWord(f.level);
  }

  /** With all six tabs there, whatever is there of the bag is taken for all of it. */
  lemma LongPiece(codec: TimeCodec, f: Frame, now: Stamp, tail: string)
    requires Lawful(codec) && Formattable(codec, Stamped(f, now)) && TabFreeHead(f)
    ensures
      var p := Parse(codec, ToTsvLine(codec, f, now));
      && p.Accepted?
      && Parse(codec, HeadText(codec, f, now) + tail) == Accepted(p.frame.(kv := KvOf(UpToTab(tail))))
  {
    hide Parse, KvText, KvOf, TrimEol, Trim, Split, UpToTab, ParseLevel;
    var t := Stamped(f, now);
    var cols := Columns(codec, f, t);
    HeadIsTabFree(codec, f, t);
    HeadAndTail(codec, cols[..6], tail);
    ReparseHead(codec, f, now);
    PrintedIsAccepted(codec, f, now);
    BagOfPiece(tail);
  }

  lemma BagOfPiece(tail: string)
    ensures KvOf(Trim(Split(TrimEol(tail), '\t')[0])) == KvOf(UpToTab(tail))
  {
    hide KvOf, TrimEol, Trim, Split;
    EolPieces(tail);
    var a, b := Split(TrimEol(tail), '\t'), Split(tail, '\t');
    if |a| > 1 {
      assert a[0] == a[..|a| - 1][0] == b[..|b| - 1][0] == b[0];
    }
    KvOfTrim(a[0]);
    KvOfTrim(b[0]);
  }

  /**
   Exactly when the start of a printed line passes as a frame: when six tabs are in it, which for a
   tab-free head means that the tab before the bag is there. Then it is the frame that was printed, but
   for the bag, which is read from what is there of it, up to a tab.
   */
  lemma TornPieceExact(codec: TimeCodec, f: Frame, now: Stamp, text: string)
    requires Lawful(codec) && Formattable(codec, Stamped(f, now)) && text <= ToTsvLine(codec, f, now)
    ensures Parse(codec, text).Accepted? <==> |Split(text, '\t')| >= 7
    ensures TabFreeHead(f) ==>
      var head, p := HeadText(codec, f, now), Parse(codec, ToTsvLine(codec, f, now));
      && p.Accepted?
      && (|Split(text, '\t')| >= 7 <==> head <= text)
      && (head <= text ==> Parse(codec, text) == Accepted(p.frame.(kv := KvOf(UpToTab(text[|head|..])))))
  {
    hide Parse, ToTsvLine, KvText, KvOf, HeadText, UpToTab, Split;
    FewColumns(codec, text);
    if |Split(text, '\t')| >= 7 {
      ManyColumns(codec, f, now, text);
    }
    if TabFreeHead(f) {
      var head := HeadText(codec, f, now);
      TextParts(codec, f, now);
      LongPiece(codec, f, now, "");
      if head <= text {
        var tail := text[|head|..];
        assert text == head + tail;
        LongPiece(codec, f, now, tail);
      } else {
        HeadIsShort(codec, f, now, text);
      }
    }
  }

  lemma HeadIsShort(codec: TimeCodec, f: Frame, now: Stamp, text: string)
    requires Lawful(codec) && Formattable(codec, Stamped(f, now)) && TabFreeHead(f)
    requires text <= HeadText(codec, f, now) && text != HeadText(codec, f, now)
    ensures |Split(text, '\t')| < 7
  {
    hide KvText, Split, Join;
    HeadIsTabFree(codec, f, Stamped(f, now));
    ShortPiece(Columns(codec, f, Stamped(f, now))[..6], text);
  }
}

/** Counting what an ingest connection sends (crates/hawkd/src/unix_ingest.rs:75-97). */
module Accounting {
  import opened Basics
  import opened Text
  import opened HawkFrame
  import opened Utf8
  import opened Framing
  import opened Producers

  /** A line that is neither blank nor a comment. */
  predicate Substantive(text: string) {
    var line := TrimEol(text);
    !Blank(line) && !IsComment(line)
  }

  function CountSubstantive(items: seq<Item>): nat {
    if items == [] then 0
    else
      var last := items[|items| - 1];
      CountSubstantive(items[..|items| - 1]) + if last.Line? && Substantive(last.text) then 1 else 0
  }

  /** The loop reads up to the first line that is not UTF-8. */
  function ReadableLength(items: seq<Item>): (n: nat)
    ensures n <= |items|
    ensures forall i :: 0 <= i < n ==> items[i].Line?
    ensures n < |items| ==> items[n].Unreadable?
  {
    if items == [] || items[0].Unreadable? then 0 else 1 + ReadableLength(items[1..])
  }

  /** Everything said, in order, were no reply to end the loop. */
  function Said(replies: seq<Reply>): seq<Message> {
    if replies == [] then []
    else
      var last := replies[|replies| - 1];
      Said(replies[..|replies| - 1]) + SaidIn(last)
  }

  lemma {:induction false} SaidConcat(a: seq<Reply>, b: seq<Reply>)
    ensures Said(a + b) == Said(a) + Said(b)
  {
    if b == [] {
      assert a + b == a;
    } else {
      var n := |b| - 1;
      assert (a + b)[..|a + b| - 1] == a + b[..n];
      SaidConcat(a, b[..n]);
    }
  }

  lemma SaidOne(r: Reply)
    ensures Said([r]) == SaidIn(r)
  {
    assert [r][..0] == [];
  }

  lemma SaidFront(r: Reply, rest: seq<Reply>)
    ensures Said([r] + rest) == SaidIn(r) + Said(rest)
  {
    hide Said;
    SaidConcat([r], rest);
    SaidOne(r);
  }

  /** Talk is what was said up to and including the first stop. */
  lemma {:induction false} TalkIsSaid(replies: seq<Reply>, n: nat)
    requires n <= |replies|
    requires forall i :: 0 <= i < n ==> !replies[i].stops
    requires n < |replies| ==> replies[n].stops
    ensures Talk(replies) == Said(if n < |replies| then replies[..n + 1] else replies)
  {
    hide SaidIn, Said;
    if replies == [] {
      SaidNothing();
    } else if n == 0 {
      assert replies[..1] == [replies[0]];
      SaidOne(replies[0]);
    } else {
      var rest := replies[1..];
      TalkIsSaid(rest, n - 1);
      var upTo := if n < |replies| then replies[..n + 1] else replies;
      var restUpTo := if n - 1 < |rest| then rest[..n] else rest;
      assert upTo == [replies[0]] + restUpTo;
      SaidFront(replies[0], restUpTo);
    }
  }

  lemma SaidNothing()
    ensures Said([]) == []
  {
  }

  lemma SubstantiveIffNotIgnored(codec: TimeCodec, text: string)
    ensures Substantive(text) <==> Parse(codec, text) != Ignored
  {
    TrimBlank(TrimEol(text));
  }

  lemma {:induction false} CountIsSaid(items: seq<Item>, replies: seq<Reply>)
    requires |items| == |replies|
    requires forall i :: 0 <= i < |items| ==> (replies[i].said.Some? <==> items[i].Line? && Substantive(items[i].text))
    ensures |Said(replies)| == CountSubstantive(items)
  {
    if items != [] {
      CountIsSaid(items[..|items| - 1], replies[..|items| - 1]);
    }
  }

  /** A line that is refused and whose receipt cannot be built, because the clip panics. */
  predicate Fatal(codec: TimeCodec, item: Item) {
    item.Line? && Parse(codec, item.text).Rejected? && Clip(item.text).None?
  }

  lemma ReplyShape(w: World, path: string, item: Item, now: Stamp)
    ensures
      var r := ReplyTo(w, false, Ingest(path), item, now);
      && (r.stops <==> item.Unreadable? || Fatal(w.codec, item))
      && (r.said.Some? <==> item.Line? && Substantive(item.text) && !Fatal(w.codec, item))
  {
    hide Clip, ReceiptFrame, Parse;
    if item.Line? {
      SubstantiveIffNotIgnored(w.codec, item.text);
    }
  }

  lemma {:induction false} CountMonotone(items: seq<Item>, n: nat)
    requires n <= |items|
    ensures CountSubstantive(items[..n]) <= CountSubstantive(items)
  {
    if n == |items| {
      assert items[..n] == items;
    } else {
      var m := |items| - 1;
      CountMonotone(items[..m], n);
      assert items[..m][..n] == items[..n];
    }
  }

  lemma {:induction false} FirstFatal(codec: TimeCodec, items: seq<Item>) returns (n: nat)
    ensures n <= |items|
    ensures forall i :: 0 <= i < n ==> !Fatal(codec, items[i])
    ensures n < |items| ==> Fatal(codec, items[n])
  {
    if items == [] || Fatal(codec, items[0]) {
      n := 0;
    } else {
      n := FirstFatal(codec, items[1..]);
      n := n + 1;
      assert forall i :: 1 <= i < n ==> items[i] == items[1..][i - 1];
    }
  }

  /** The loop ends at the first unreadable or fatal line; until then each substantive line is answered. */
  lemma TalkUpTo(w: World, path: string, items: seq<Item>, clocks: seq<Stamp>, n: nat)
    requires |clocks| == |items| && n <= |items|
    requires forall i :: 0 <= i < n ==> items[i].Line? && !Fatal(w.codec, items[i])
    requires n < |items| ==> items[n].Unreadable? || Fatal(w.codec, items[n])
    ensures |Talk(Replies(w, false, Ingest(path), items, clocks))| == CountSubstantive(items[..n])
  {
    hide Parse, ReplyTo, Fatal, Substantive;
    var replies := Replies(w, false, Ingest(path), items, clocks);
    forall i | 0 <= i < |items|
      ensures replies[i].stops <==> items[i].Unreadable? || Fatal(w.codec, items[i])
      ensures replies[i].said.Some? <==> items[i].Line? && Substantive(items[i].text) && !Fatal(w.codec, items[i])
    {
      ReplyShape(w, path, items[i], clocks[i]);
    }
    TalkIsSaid(replies, n);
    CountIsSaid(items[..n], replies[..n]);
    if n < |items| {
      assert replies[..n + 1] == replies[..n] + [replies[n]];
      assert replies[..n + 1][..n] == replies[..n];
    } else {
      assert replies[..n] == replies;
    }
  }

  /**
   Without strict mode, an ingest connection sends exactly one line for each line that is neither
   blank nor a comment, if and only if no refused line longer than 240 bytes has byte 240
   inside a character. (Such a line ends the thread and loses what follows.)
   */
  lemma IngestAnswersEach(w: World, path: string, items: seq<Item>, clocks: seq<Stamp>)
    requires |clocks| == |items|
    ensures
      var n := ReadableLength(items);
      |Talk(Replies(w, false, Ingest(path), items, clocks))| == CountSubstantive(items[..n])
      <==> forall i :: 0 <= i < n ==> !Fatal(w.codec, items[i])
  {
    hide Parse, Replies, Talk, Fatal, Substantive;
    var n := ReadableLength(items);
    var k := FirstFatal(w.codec, items[..n]);
    assert forall i :: 0 <= i < k ==> items[i] == items[..n][i];
    TalkUpTo(w, path, items, clocks, k);
    if k < n {
      assert items[..n][k] == items[k];
      FatalIsSubstantive(w.codec, items[k]);
      assert items[..n][..k + 1][..k] == items[..k];
      CountMonotone(items[..n], k + 1);
    }
  }

  /** 239 letters and a two-byte character: refused for want of columns, and the clip panics on it. */
  function WideLine(): string {
    seq(239, i => 'x') + [0xE9 as char]
  }

  lemma FatalLineExists(codec: TimeCodec)
    ensures Fatal(codec, Line(WideLine()))
  {
    hide Clip, Trim;
    var text := WideLine();
    assert Trimmed(text);
    TrimIdentity(text);
    TrimEolTrimmed(text);
    assert TrimStart(text) == text;
    SplitWhole(text, '\t');
    var front := text[..239];
    assert text == front + [0xE9 as char] + "";
    ClipPanics(front, 0xE9 as char, "");
  }

  lemma FatalIsSubstantive(codec: TimeCodec, item: Item)
    requires Fatal(codec, item)
    ensures item.Line? && Substantive(item.text)
  {
    hide Parse, Clip;
    SubstantiveIffNotIgnored(codec, item.text);
  }

  // ----- Strict mode

  lemma {:induction false} TalkPrefix(replies: seq<Reply>, n: nat)
    requires n <= |replies|
    ensures Talk(replies[..n]) <= Talk(replies)
  {
    if n > 0 && !replies[0].stops {
      assert replies[..n][1..] == replies[1..][..n - 1];
      TalkPrefix(replies[1..], n - 1);
    }
  }

  lemma {:induction false} TalkCut(strict: seq<Reply>, lenient: seq<Reply>, k: nat)
    requires |strict| == |lenient| && k <= |lenient|
    requires forall i :: 0 <= i < k ==> strict[i] == lenient[i]
    requires k < |lenient| ==> strict[k].stops && strict[k].said == lenient[k].said
    ensures Talk(strict) == Talk(if k < |lenient| then lenient[..k + 1] else lenient)
  {
    if k == |lenient| {
      assert strict == lenient;
    } else if k == 0 {
      assert lenient[..1][1..] == [];
    } else {
      TalkCut(strict[1..], lenient[1..], k - 1);
      assert lenient[..k + 1][1..] == lenient[1..][..k];
    }
  }

  function FirstRejected(codec: TimeCodec, items: seq<Item>): (k: nat)
    ensures k <= |items|
  {
    if items == [] || (items[0].Line? && Parse(codec, items[0].text).Rejected?) then 0
    else 1 + FirstRejected(codec, items[1..])
  }

  lemma {:induction false} FirstRejectedIsFirst(codec: TimeCodec, items: seq<Item>)
    ensures
      var k := FirstRejected(codec, items);
      && (forall i :: 0 <= i < k ==> items[i].Unreadable? || !Parse(codec, items[i].text).Rejected?)
      && (k < |items| ==> items[k].Line? && Parse(codec, items[k].text).Rejected?)
  {
    hide Parse;
    if items != [] && (items[0].Unreadable? || !Parse(codec, items[0].text).Rejected?) {
      FirstRejectedIsFirst(codec, items[1..]);
      assert forall i :: 1 <= i < |items| ==> items[i] == items[1..][i - 1];
    }
  }

  /**
   Strict ingest sends what lenient ingest sends up to and including the answer to the first
   refused line, and so a prefix of it.
   */
  lemma StrictIsPrefix(w: World, path: string, items: seq<Item>, clocks: seq<Stamp>)
    requires |clocks| == |items|
    ensures
      var k := FirstRejected(w.codec, items);
      var cut := if k < |items| then k + 1 else k;
      Talk(Replies(w, true, Ingest(path), items, clocks)) ==
      Talk(Replies(w, false, Ingest(path), items[..cut], clocks[..cut]))
    ensures Talk(Replies(w, true, Ingest(path), items, clocks)) <= Talk(Replies(w, false, Ingest(path), items, clocks))
  {
    hide Parse, ReplyTo, Talk, FirstRejected;
    var k := FirstRejected(w.codec, items);
    StrictReplies(w, path, items, clocks);
    var strict := Replies(w, true, Ingest(path), items, clocks);
    var lenient := Replies(w, false, Ingest(path), items, clocks);
    TalkCut(strict, lenient, k);
    var cut := if k < |items| then k + 1 else k;
    assert Replies(w, false, Ingest(path), items[..cut], clocks[..cut]) == lenient[..cut];
    TalkPrefix(lenient, cut);
    assert cut == |items| ==> lenient[..cut] == lenient;
  }

  /** Up to the first refused line, strict mode makes no difference; there, it stops. */
  lemma StrictReplies(w: World, path: string, items: seq<Item>, clocks: seq<Stamp>)
    requires |clocks| == |items|
    ensures
      var k := FirstRejected(w.codec, items);
      var strict, lenient := Replies(w, true, Ingest(path), items, clocks), Replies(w, false, Ingest(path), items, clocks);
      && (forall i :: 0 <= i < k ==> strict[i] == lenient[i])
      && (k < |items| ==> strict[k].stops && strict[k].said == lenient[k].said)
  {
    hide Parse, Receipt, FirstRejected;
    FirstRejectedIsFirst(w.codec, items);
  }

  predicate AllReadable(items: seq<Item>) {
    forall i :: 0 <= i < |items| ==> items[i].Line?
  }

  predicate NeverStops(replies: seq<Reply>) {
    forall i :: 0 <= i < |replies| ==> !replies[i].stops
  }

  /** A loop that stops at `last`, unless it has stopped before. */
  lemma {:induction false} TalkUntil(before: seq<Reply>, last: Reply, rest: seq<Reply>)
    requires last.stops
    ensures Talk(before + [last] + rest) == if NeverStops(before) then Talk(before) + SaidIn(last) else Talk(before)
  {
    hide SaidIn;
    var all := before + [last] + rest;
    if before == [] {
      assert all[0] == last;
      assert Talk(before) + SaidIn(last) == SaidIn(last);
    } else {
      var tail := before[1..];
      assert all[0] == before[0] && all[1..] == tail + [last] + rest;
      if !before[0].stops {
        TalkUntil(tail, last, rest);
        assert NeverStops(before) <==> NeverStops(tail) by {
          assert forall i :: 1 <= i < |before| ==> before[i] == tail[i - 1];
        }
        Associate(SaidIn(before[0]), Talk(tail), SaidIn(last));
      }
    }
  }

  lemma StdinReply(w: World, item: Item, now: Stamp)
    requires item.Unreadable? || !Parse(w.codec, item.text).Rejected?
    ensures
      var r := ReplyTo(w, true, Stdin, item, now);
      r == ReplyTo(w, false, Stdin, item, now) && (r.stops <==> item.Unreadable?)
  {
    hide Parse;
  }

  lemma StdinReplies(w: World, items: seq<Item>, clocks: seq<Stamp>)
    requires |clocks| == |items|
    requires forall i :: 0 <= i < |items| ==> items[i].Unreadable? || !Parse(w.codec, items[i].text).Rejected?
    ensures Replies(w, true, Stdin, items, clocks) == Replies(w, false, Stdin, items, clocks)
    ensures NeverStops(Replies(w, false, Stdin, items, clocks)) <==> AllReadable(items)
  {
    hide Parse, ReplyTo;
    var replies := Replies(w, false, Stdin, items, clocks);
    forall i | 0 <= i < |items|
      ensures ReplyTo(w, true, Stdin, items[i], clocks[i]) == replies[i]
      ensures replies[i].stops <==> items[i].Unreadable?
    {
      StdinReply(w, items[i], clocks[i]);
    }
  }

  /**
   Stdin passes over refused lines; in strict mode it sends what it sends without, up to the first
   refused line, then one comment that names the error, and stops.
   */
  lemma StdinStrict(w: World, items: seq<Item>, clocks: seq<Stamp>, k: nat)
    requires |clocks| == |items| && k < |items|
    requires forall i :: 0 <= i < k ==> items[i].Unreadable? || !Parse(w.codec, items[i].text).Rejected?
    requires items[k].Line? && Parse(w.codec, items[k].text).Rejected?
    ensures
      var strict := Talk(Replies(w, true, Stdin, items, clocks));
      var before := Talk(Replies(w, false, Stdin, items[..k], clocks[..k]));
      strict == if AllReadable(items[..k]) then before + [Notice(Parse(w.codec, items[k].text).error)] else before
  {
    hide Parse, Talk, NeverStops, AllReadable;
    var strict := Replies(w, true, Stdin, items, clocks);
    StdinReplies(w, items[..k], clocks[..k]);
    var before := Replies(w, true, Stdin, items[..k], clocks[..k]);
    assert strict == before + [strict[k]] + strict[k + 1..];
    TalkUntil(before, strict[k], strict[k + 1..]);
  }

  // ----- Every accepted line is sent

  lemma {:induction false} TalkMember(replies: seq<Reply>, i: nat)
    requires i < |replies| && replies[i].said.Some?
    requires forall j :: 0 <= j < i ==> !replies[j].stops
    ensures replies[i].said.value in Talk(replies)
  {
    if i > 0 {
      TalkMember(replies[1..], i - 1);
    }
  }

  predicate Ends(w: World, strict: bool, src: Source, item: Item) {
    || item.Unreadable?
    || (Parse(w.codec, item.text).Rejected? && (strict || (src.Ingest? && Clip(item.text).None?)))
  }

  lemma EndsExact(w: World, strict: bool, src: Source, item: Item, now: Stamp)
    ensures ReplyTo(w, strict, src, item, now).stops <==> Ends(w, strict, src, item)
  {
    hide Parse, Clip, ReceiptFrame;
  }

  /**
   A frame accepted on stdin or an ingest connection is sent with the clock of its line, unless an
   earlier line ended the loop: one that is not UTF-8, a refused one in strict mode, or a refused one
   whose clip panics.
   */
  lemma AcceptedIsSent(w: World, strict: bool, src: Source, items: seq<Item>, clocks: seq<Stamp>, i: nat)
    requires |clocks| == |items| && i < |items|
    requires forall j :: 0 <= j < i ==> !Ends(w, strict, src, items[j])
    requires items[i].Line? && Parse(w.codec, items[i].text).Accepted?
    ensures FrameOut(Parse(w.codec, items[i].text).frame, clocks[i]) in Talk(Replies(w, strict, src, items, clocks))
  {
    hide Parse, Talk, Ends, Receipt;
    var replies := Replies(w, strict, src, items, clocks);
    forall j | 0 <= j < i ensures !replies[j].stops {
      EndsExact(w, strict, src, items[j], clocks[j]);
    }
    assert replies[i].said == Some(FrameOut(Parse(w.codec, items[i].text).frame, clocks[i]));
    TalkMember(replies, i);
  }

  /** What a loop that is still running sends for one more line. */
  ghost predicate Answers(w: World, strict: bool, src: Source, item: Item, now: Stamp, said: seq<Message>) {
    match item
    case Unreadable => said == []
    case Line(text) =>
      match Parse(w.codec, text)
      case Accepted(f) => said == [FrameOut(f, now)]
      case Ignored => said == []
      case Rejected(e) =>
        match src
        case Stdin => said == if strict then [Notice(e)] else []
        case Ingest(path) => if Clip(text).None? then said == [] else |said| == 1 && IsAnswerTo(w, path, text, e, now, said[0])
  }

  /** The receipt for a refused line: stamped, with the path, the error and the line, clipped, in its bag. */
  ghost predicate IsAnswerTo(w: World, path: string, text: string, e: ParseError, now: Stamp, m: Message) {
    && m.FrameOut? && m.now == now && m.frame.ts == Some(now) && IsReceipt(m.frame)
    && m.frame.kv.Keys == {"ingest_path", "error", "raw"}
    && m.frame.kv["ingest_path"] == path && m.frame.kv["error"] == w.debug(e)
    && (if |Encode(text)| <= 240 then m.frame.kv["raw"] == text else ClippedAt240(text, m.frame.kv["raw"]))
  }

  lemma ReplyAnswers(w: World, strict: bool, src: Source, item: Item, now: Stamp)
    ensures Answers(w, strict, src, item, now, SaidIn(ReplyTo(w, strict, src, item, now)))
  {
    hide Parse, Clip, IsReceipt, Encode, ClippedAt240;
    if item.Line? && Parse(w.codec, item.text).Rejected? && src.Ingest? && Clip(item.text).Some? {
      var err := w.debug(Parse(w.codec, item.text).error);
      ReceiptBag(now, src.path, item.text, err);
      ReceiptIsReceipt(now, src.path, Clip(item.text).value, err);
    }
  }

  /** One more line, if no earlier one ended the loop, adds exactly its answer. */
  lemma LineAnswered(w: World, strict: bool, src: Source, items: seq<Item>, clocks: seq<Stamp>, i: nat)
    requires |clocks| == |items| && i < |items|
    requires forall j :: 0 <= j < i ==> !Ends(w, strict, src, items[j])
    ensures
      var before := Talk(Replies(w, strict, src, items[..i], clocks[..i]));
      var after := Talk(Replies(w, strict, src, items[..i + 1], clocks[..i + 1]));
      before <= after && Answers(w, strict, src, items[i], clocks[i], after[|before|..])
  {
    hide Parse, Talk, Ends, ReplyTo, SaidIn, Answers, Said;
    var a, b := Replies(w, strict, src, items[..i], clocks[..i]), Replies(w, strict, src, items[..i + 1], clocks[..i + 1]);
    forall j | 0 <= j < i ensures !a[j].stops {
      EndsExact(w, strict, src, items[j], clocks[j]);
    }
    assert b == a + [b[i]];
    TalkIsSaid(a, i);
    TalkIsSaid(b, if b[i].stops then i else i + 1);
    assert b[..i + 1] == b;
    SaidConcat(a, [b[i]]);
    SaidOne(b[i]);
    ReplyAnswers(w, strict, src, items[i], clocks[i]);
    assert Said(b)[|Said(a)|..] == SaidIn(b[i]);
  }

  /** A line that ends the loop is the last that is answered. */
  lemma NothingAfter(w: World, strict: bool, src: Source, items: seq<Item>, clocks: seq<Stamp>, i: nat)
    requires |clocks| == |items| && i < |items| && Ends(w, strict, src, items[i])
    ensures Talk(Replies(w, strict, src, items, clocks)) == Talk(Replies(w, strict, src, items[..i + 1], clocks[..i + 1]))
  {
    hide Parse, Talk, Ends, ReplyTo, SaidIn, NeverStops;
    var all, upTo := Replies(w, strict, src, items, clocks), Replies(w, strict, src, items[..i + 1], clocks[..i + 1]);
    EndsExact(w, strict, src, items[i], clocks[i]);
    assert all == all[..i] + [all[i]] + all[i + 1..];
    assert upTo == all[..i] + [all[i]] + [];
    TalkUntil(all[..i], all[i], all[i + 1..]);
    TalkUntil(all[..i], all[i], []);
  }
}

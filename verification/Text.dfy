/** Optional values, used for the source's `Option`. */
module Basics {
  datatype Option<+T> = None | Some(value: T) {
    function UnwrapOr(default: T): T {
      match this
      case Some(v) => v
      case None => default
    }
  }
}

/**
 Strings as the Rust standard library treats them: Unicode white space, trimming,
 splitting on a character and joining.
 */
module Text {
  /** `char::is_whitespace`: the Unicode White_Space property. */
  predicate IsSpace(c: char) {
    var n := c as int;
    || 0x09 <= n <= 0x0D
    || n in {0x20, 0x85, 0xA0, 0x1680, 0x2028, 0x2029, 0x202F, 0x205F, 0x3000}
    || 0x2000 <= n <= 0x200A
  }

  predicate Blank(s: string) {
    forall i :: 0 <= i < |s| ==> IsSpace(s[i])
  }

  predicate Trimmed(s: string) {
    s == "" || (!IsSpace(s[0]) && !IsSpace(s[|s| - 1]))
  }

  function TrimStart(s: string): string {
    if s != "" && IsSpace(s[0]) then TrimStart(s[1..]) else s
  }

  function TrimEnd(s: string): string {
    if s != "" && IsSpace(s[|s| - 1]) then TrimEnd(s[..|s| - 1]) else s
  }

  function Trim(s: string): string {
    TrimEnd(TrimStart(s))
  }

  lemma {:induction false} TrimStartParts(s: string) returns (before: string)
    ensures Blank(before) && s == before + TrimStart(s)
    ensures TrimStart(s) == "" || !IsSpace(TrimStart(s)[0])
  {
    if s != "" && IsSpace(s[0]) {
      var rest := TrimStartParts(s[1..]);
      before := [s[0]] + rest;
    } else {
      before := "";
    }
  }

  lemma {:induction false} TrimEndParts(s: string) returns (after: string)
    ensures Blank(after) && s == TrimEnd(s) + after
    ensures TrimEnd(s) == "" || !IsSpace(TrimEnd(s)[|TrimEnd(s)| - 1])
  {
    if s != "" && IsSpace(s[|s| - 1]) {
      var rest := TrimEndParts(s[..|s| - 1]);
      after := rest + [s[|s| - 1]];
    } else {
      after := "";
    }
  }

  /** The text that `trim` removes on either side. */
  lemma TrimParts(s: string) returns (before: string, after: string)
    ensures Blank(before) && Blank(after) && Trimmed(Trim(s))
    ensures s == before + Trim(s) + after
  {
    before := TrimStartParts(s);
    after := TrimEndParts(TrimStart(s));
    if Trim(s) != "" {
      assert TrimStart(s)[0] == Trim(s)[0];
    }
  }

  lemma {:induction false} TrimStartSkips(before: string, s: string)
    requires Blank(before)
    ensures TrimStart(before + s) == TrimStart(s)
  {
    if before == "" {
      assert before + s == s;
    } else {
      assert (before + s)[1..] == before[1..] + s;
      TrimStartSkips(before[1..], s);
    }
  }

  lemma {:induction false} TrimEndSkips(s: string, after: string)
    requires Blank(after)
    ensures TrimEnd(s + after) == TrimEnd(s)
  {
    if after == "" {
      assert s + after == s;
    } else {
      var n := |after| - 1;
      assert (s + after)[..|s + after| - 1] == s + after[..n];
      TrimEndSkips(s, after[..n]);
    }
  }

  /** `trim` is determined by what it leaves: any trimmed core between blanks is the result. */
  lemma TrimUnique(before: string, core: string, after: string)
    requires Blank(before) && Blank(after) && Trimmed(core)
    ensures Trim(before + core + after) == core
  {
    assert before + core + after == before + (core + after);
    TrimStartSkips(before, core + after);
    if core == "" {
      assert core + after == after + "";
      TrimStartSkips(after, "");
    } else {
      assert TrimStart(core + after) == core + after;
      TrimEndSkips(core, after);
    }
  }

  lemma TrimIdentity(s: string)
    requires Trimmed(s)
    ensures Trim(s) == s
  {
    TrimUnique("", s, "");
    assert "" + s + "" == s;
  }

  lemma TrimTrims(s: string)
    ensures Trimmed(Trim(s))
    ensures forall c :: c in Trim(s) ==> c in s
  {
    var before, after := TrimParts(s);
  }

  lemma TrimBlank(s: string)
    ensures Trim(s) == "" <==> Blank(s)
  {
    var before, after := TrimParts(s);
    if Trim(s) == "" {
      assert s == before + after;
    } else {
      assert s[|before|] == Trim(s)[0];
    }
  }

  lemma TrimLeading(before: string, s: string)
    requires Blank(before)
    ensures Trim(before + s) == Trim(s)
  {
    var a, b := TrimParts(s);
    assert before + s == (before + a) + Trim(s) + b;
    TrimUnique(before + a, Trim(s), b);
  }

  lemma TrimTrailing(s: string, after: string)
    requires Blank(after)
    ensures Trim(s + after) == Trim(s)
  {
    var a, b := TrimParts(s);
    assert s + after == a + Trim(s) + (b + after);
    TrimUnique(a, Trim(s), b + after);
  }

  /** `split(c)`: the maximal pieces of `s` free of `c`, in order; never empty. */
  function Split(s: string, c: char): (parts: seq<string>)
    ensures |parts| > 0
  {
    if s == "" then [""]
    else
      var rest := Split(s[1..], c);
      if s[0] == c then [""] + rest else Prepend(s[0], rest)
  }

  /** Put one more character at the front of the first piece. */
  function Prepend(d: char, parts: seq<string>): seq<string>
    requires parts != []
  {
    [[d] + parts[0]] + parts[1..]
  }

  function Join(parts: seq<string>, c: char): string {
    if parts == [] then ""
    else if |parts| == 1 then parts[0]
    else parts[0] + [c] + Join(parts[1..], c)
  }

  lemma PrependConcat(d: char, a: seq<string>, b: seq<string>)
    requires a != []
    ensures Prepend(d, a + b) == Prepend(d, a) + b
  {
    assert (a + b)[0] == a[0] && (a + b)[1..] == a[1..] + b;
  }

  lemma {:induction false} SplitConcat(a: string, b: string, c: char)
    ensures Split(a + [c] + b, c) == Split(a, c) + Split(b, c)
  {
    hide Prepend;
    var s := a + [c] + b;
    if a == "" {
      assert s[0] == c && s[1..] == b;
    } else {
      assert s[0] == a[0] && s[1..] == a[1..] + [c] + b;
      SplitConcat(a[1..], b, c);
      PrependConcat(a[0], Split(a[1..], c), Split(b, c));
    }
  }

  lemma {:induction false} SplitFront(before: string, t: string, c: char)
    requires c !in before
    ensures Split(before + t, c) == [before + Split(t, c)[0]] + Split(t, c)[1..]
  {
    if before == "" {
      assert before + t == t;
      assert before + Split(t, c)[0] == Split(t, c)[0];
    } else {
      assert before[0] in before;
      assert (before + t)[1..] == before[1..] + t;
      SplitFront(before[1..], t, c);
      assert [before[0]] + (before[1..] + Split(t, c)[0]) == before + Split(t, c)[0];
    }
  }

  lemma {:induction false} SplitWhole(s: string, c: char)
    requires c !in s
    ensures Split(s, c) == [s]
  {
    if s != "" {
      assert s[0] in s && c !in s[1..];
      SplitWhole(s[1..], c);
      assert [s[0]] + s[1..] == s;
    }
  }

  lemma {:induction false} SplitBack(t: string, after: string, c: char)
    ensures |Split(t + after, c)| >= |Split(t, c)|
    ensures |Split(t, c)| > 1 ==> Split(t + after, c)[0] == Split(t, c)[0]
  {
    if t != "" {
      assert (t + after)[1..] == t[1..] + after;
      SplitBack(t[1..], after, c);
    }
  }

  lemma PrependEnd(d: char, parts: seq<string>, after: string)
    requires parts != []
    ensures
      var n := |parts| - 1;
      Prepend(d, parts[..n] + [parts[n] + after]) == Prepend(d, parts)[..n] + [Prepend(d, parts)[n] + after]
  {
    var n := |parts| - 1;
    if n == 0 {
      assert [d] + (parts[0] + after) == ([d] + parts[0]) + after;
    } else {
      assert (parts[..n] + [parts[n] + after])[1..] == parts[1..n] + [parts[n] + after];
    }
  }

  lemma {:induction false} SplitEnd(t: string, after: string, c: char)
    requires c !in after
    ensures
      var n := |Split(t, c)| - 1;
      Split(t + after, c) == Split(t, c)[..n] + [Split(t, c)[n] + after]
  {
    if t == "" {
      assert t + after == after;
      SplitWhole(after, c);
      assert "" + after == after;
    } else {
      assert (t + after)[1..] == t[1..] + after;
      SplitEnd(t[1..], after, c);
      var rest := Split(t[1..], c);
      var n := |rest| - 1;
      if t[0] == c {
        assert ([""] + rest)[..n + 1] == [""] + rest[..n];
      } else {
        PrependEnd(t[0], rest, after);
      }
    }
  }

  /** No piece holds the separator, nor any character that the whole lacks. */
  lemma {:induction false} SplitPieces(s: string, c: char, i: nat)
    requires i < |Split(s, c)|
    ensures c !in Split(s, c)[i]
    ensures forall d :: d in Split(s, c)[i] ==> d in s
  {
    if s != "" {
      var rest := Split(s[1..], c);
      if s[0] == c {
        if i > 0 {
          SplitPieces(s[1..], c, i - 1);
        }
      } else {
        SplitPieces(s[1..], c, i);
      }
      assert forall d :: d in s[1..] ==> d in s;
    }
  }

  lemma {:induction false} SplitJoin(parts: seq<string>, c: char)
    requires parts != []
    requires forall i :: 0 <= i < |parts| ==> c !in parts[i]
    ensures Split(Join(parts, c), c) == parts
  {
    SplitWhole(parts[0], c);
    if |parts| > 1 {
      SplitJoin(parts[1..], c);
      SplitConcat(parts[0], Join(parts[1..], c), c);
      assert parts == [parts[0]] + parts[1..];
    }
  }

  lemma {:induction false} JoinSplit(s: string, c: char)
    ensures Join(Split(s, c), c) == s
  {
    if s != "" {
      JoinSplit(s[1..], c);
      var rest := Split(s[1..], c);
      if s[0] == c {
        assert ([""] + rest)[1..] == rest;
      } else {
        assert Prepend(s[0], rest)[1..] == rest[1..];
      }
    }
  }

  lemma {:induction false} SplitOne(s: string, c: char)
    ensures |Split(s, c)| == 1 <==> c !in s
  {
    if s != "" {
      SplitOne(s[1..], c);
      assert s == [s[0]] + s[1..];
    }
  }

  lemma {:induction false} JoinConcat(a: seq<string>, b: seq<string>, c: char)
    requires a != [] && b != []
    ensures Join(a + b, c) == Join(a, c) + [c] + Join(b, c)
  {
    if |a| == 1 {
      assert (a + b)[1..] == b;
    } else {
      assert (a + b)[1..] == a[1..] + b;
      JoinConcat(a[1..], b, c);
    }
  }

  /** Blank pieces with a blank between them are blank. */
  lemma {:induction false} JoinBlank(parts: seq<string>, c: char)
    requires IsSpace(c) && forall i :: 0 <= i < |parts| ==> Blank(parts[i])
    ensures Blank(Join(parts, c))
  {
    if |parts| > 1 {
      JoinBlank(parts[1..], c);
    }
  }

  lemma JoinEdges(cols: seq<string>, c: char) returns (front: string, back: string)
    requires cols != []
    ensures Join(cols, c) == cols[0] + front == back + cols[|cols| - 1]
  {
    var n := |cols| - 1;
    if n == 0 {
      front, back := "", "";
    } else {
      front := [c] + Join(cols[1..], c);
      back := Join(cols[..n], c) + [c];
      JoinConcat(cols[..n], [cols[n]], c);
      assert cols == cols[..n] + [cols[n]];
    }
  }

  lemma {:induction false} JoinKeepsOut(parts: seq<string>, c: char, d: char)
    requires d != c
    requires forall i :: 0 <= i < |parts| ==> d !in parts[i]
    ensures d !in Join(parts, c)
  {
    if |parts| > 1 {
      JoinKeepsOut(parts[1..], c, d);
    }
  }

  lemma {:induction false} JoinShows(parts: seq<string>, c: char, i: nat, d: char)
    requires i < |parts| && d in parts[i]
    ensures d in Join(parts, c)
  {
    if i > 0 {
      JoinShows(parts[1..], c, i - 1, d);
    }
  }

  /** Joining trimmed pieces with a visible separator leaves nothing to trim. */
  lemma {:induction false} JoinTrimmed(parts: seq<string>, c: char)
    requires !IsSpace(c)
    requires forall i :: 0 <= i < |parts| ==> Trimmed(parts[i])
    ensures Trimmed(Join(parts, c))
  {
    if |parts| > 1 {
      JoinTrimmed(parts[1..], c);
      var rest := Join(parts[1..], c);
      var s := parts[0] + [c] + rest;
      assert s[0] == if parts[0] == "" then c else parts[0][0];
      assert s[|s| - 1] == if rest == "" then c else rest[|rest| - 1];
    }
  }

  /** Position of the first `c`. */
  function Find(s: string, c: char): (i: nat)
    requires c in s
    ensures i < |s| && s[i] == c
  {
    if s[0] == c then 0 else 1 + Find(s[1..], c)
  }

  lemma {:induction false} FindFirst(s: string, c: char)
    requires c in s
    ensures c !in s[..Find(s, c)]
  {
    if s[0] != c {
      FindFirst(s[1..], c);
      var i := Find(s[1..], c);
      assert s[..i + 1] == [s[0]] + s[1..][..i];
    }
  }

  lemma {:induction false} FindAfter(a: string, b: string, c: char)
    requires c !in a
    ensures c in a + [c] + b
    ensures Find(a + [c] + b, c) == |a|
  {
    var s := a + [c] + b;
    assert s[|a|] == c;
    if a != "" {
      assert a[0] in a;
      FindAfter(a[1..], b, c);
      assert s[1..] == a[1..] + [c] + b;
    }
  }

  /** `to_ascii_lowercase`. */
  function LowerChar(c: char): char {
    if 'A' <= c <= 'Z' then (c as int + 32) as char else c
  }

  function Lower(s: string): (r: string)
    ensures |r| == |s| && forall i :: 0 <= i < |s| ==> r[i] == LowerChar(s[i])
  {
    seq(|s|, i requires 0 <= i < |s| => LowerChar(s[i]))
  }
}

/** crates/hawk_core/src/severity.rs */
module Severity {
  import opened Text

  datatype Level = Ok | Info | Warn | Fail | Unknown {
    function AsStr(): string {
      match this
      case Ok => "ok"
      case Info => "info"
      case Warn => "warn"
      case Fail => "fail"
      case Unknown => "unknown"
    }

    /** `LevelRank`: smaller is worse. */
    function Rank(): nat {
      match this
      case Fail => 0
      case Warn => 1
      case Info => 2
      case Ok => 3
      case Unknown => 4
    }
  }

  function ParseLevel(s: string): Level {
    var w := Lower(Trim(s));
    if w == "ok" then Ok
    else if w == "info" then Info
    else if w == "warn" || w == "warning" then Warn
    else if w == "fail" || w == "error" || w == "fatal" then Fail
    else Unknown
  }

  /** The five level words are lower case and need no trimming. */
  lemma LevelWord(l: Level)
    ensures Trim(l.AsStr()) == l.AsStr() && Lower(l.AsStr()) == l.AsStr()
    ensures forall c :: c in l.AsStr() ==> 'a' <= c <= 'z'
  {
    TrimIdentity(l.AsStr());
    assert Lower(l.AsStr()) == l.AsStr();
  }

  /** The words for each level, in any letter case and with blanks around; any other text is unknown. */
  lemma LevelWords(before: string, word: string, after: string)
    requires Blank(before) && Blank(after) && Trimmed(word)
    ensures
      var w, l := Lower(word), ParseLevel(before + word + after);
      && (w in {"warn", "warning"} <==> l == Warn)
      && (w in {"fail", "error", "fatal"} <==> l == Fail)
      && (w == "info" <==> l == Info)
      && (w == "ok" <==> l == Ok)
  {
    hide Trim;
    TrimUnique(before, word, after);
  }

  /** Upper-case spellings are among them. */
  lemma UpperWords()
    ensures Lower("ERROR") == "error" && Lower("Warning") == "warning" && Lower("FATAL") == "fatal" && Lower("OK") == "ok"
  {
    assert Lower("ERROR") == "error";
    assert Lower("Warning") == "warning";
    assert Lower("FATAL") == "fatal";
    assert Lower("OK") == "ok";
  }

  /** `parse` undoes `as_str`, so a level survives print and reparse. */
  lemma LevelRoundTrip(l: Level)
    ensures ParseLevel(l.AsStr()) == l
  {
    LevelWord(l);
  }
}

/**
 The `k=v;flag` bag of crates/hawk_core/src/hawkframe.rs: `parse_kv_bag` and
 `serialize_kv_bag`.
 */
module KvBag {
  import opened Basics
  import opened Text
  import opened Ordering

  type Bag = map<string, string>

  /** What one `;`-separated part contributes: nothing, `k=v`, or a bare flag. */
  function EntryOf(part: string): Option<(string, string)> {
    var p := Trim(part);
    if p == "" then None
    else if '=' in p then
      var i := Find(p, '=');
      Some((Trim(p[..i]), Trim(p[i + 1..])))
    else Some((p, "true"))
  }

  /** Insert the entries left to right, a later one replacing an earlier one of the same key. */
  function Build(entries: seq<Option<(string, string)>>): Bag {
    if entries == [] then map[]
    else
      var before := Build(entries[..|entries| - 1]);
      match entries[|entries| - 1]
      case None => before
      case Some(e) => before[e.0 := e.1]
  }

  function Entries(parts: seq<string>): seq<Option<(string, string)>> {
    seq(|parts|, i requires 0 <= i < |parts| => EntryOf(parts[i]))
  }

  function KvOf(s: string): Bag {
    if Trim(s) == "" then map[] else Build(Entries(Split(s, ';')))
  }

  lemma BuildNone()
    ensures Build([]) == map[]
  {
  }

  lemma BuildStep(entries: seq<Option<(string, string)>>, i: nat)
    requires i < |entries|
    ensures Build(entries[..i + 1]) ==
            match entries[i]
            case None => Build(entries[..i])
            case Some(e) => Build(entries[..i])[e.0 := e.1]
  {
    assert entries[..i + 1][..i] == entries[..i];
  }

  method ParseKvBag(s: string) returns (out: Bag)
    ensures out == KvOf(s)
  {
    hide Trim, Find, Split, Build;
    out := map[];
    if Trim(s) == "" {
      return;
    }
    var parts := Split(s, ';');
    ghost var entries := Entries(parts);
    BuildNone();
    for i := 0 to |parts|
      invariant out == Build(entries[..i])
    {
      BuildStep(entries, i);
      assert entries[i] == EntryOf(parts[i]);
      var part := Trim(parts[i]);
      if part == "" {
        continue;
      }
      if '=' in part {
        var j := Find(part, '=');
        out := out[Trim(part[..j]) := Trim(part[j + 1..])];
      } else {
        out := out[part := "true"];
      }
    }
    assert entries[..|parts|] == entries;
  }

  predicate Gives(entry: Option<(string, string)>, key: string) {
    entry.Some? && entry.value.0 == key
  }

  /** The last entry for a key decides its value; a key without an entry is absent. */
  lemma {:induction false} BuildLast(entries: seq<Option<(string, string)>>, i: nat, key: string)
    requires i < |entries| && Gives(entries[i], key)
    requires forall j :: i < j < |entries| ==> !Gives(entries[j], key)
    ensures key in Build(entries) && Build(entries)[key] == entries[i].value.1
  {
    var n := |entries| - 1;
    if i < n {
      BuildLast(entries[..n], i, key);
    }
  }

  lemma {:induction false} LastGiver(entries: seq<Option<(string, string)>>, key: string) returns (i: nat)
    requires key in Build(entries)
    ensures i < |entries| && Gives(entries[i], key)
    ensures forall j :: i < j < |entries| ==> !Gives(entries[j], key)
    ensures Build(entries)[key] == entries[i].value.1
  {
    var n := |entries| - 1;
    if Gives(entries[n], key) {
      i := n;
    } else {
      i := LastGiver(entries[..n], key);
    }
  }

  lemma {:induction false} BuildConcat(a: seq<Option<(string, string)>>, b: seq<Option<(string, string)>>)
    ensures Build(a + b) == Build(a) + Build(b)
  {
    if b == [] {
      assert a + b == a;
    } else {
      var n := |b| - 1;
      assert (a + b)[..|a + b| - 1] == a + b[..n];
      BuildConcat(a, b[..n]);
    }
  }

  lemma KvOfBlank(s: string)
    requires Trim(s) == ""
    ensures Build(Entries(Split(s, ';'))) == map[]
  {
    var parts := Split(s, ';');
    TrimBlank(s);
    forall i | 0 <= i < |parts| ensures Trim(parts[i]) == "" {
      SplitPieces(s, ';', i);
      assert forall j :: 0 <= j < |parts[i]| ==> parts[i][j] in s;
      TrimBlank(parts[i]);
    }
    var bag := Build(Entries(parts));
    if bag.Keys != {} {
      var key :| key in bag;
      var i := LastGiver(Entries(parts), key);
    }
  }

  lemma KvOfBuild(s: string)
    ensures KvOf(s) == Build(Entries(Split(s, ';')))
  {
    if Trim(s) == "" {
      KvOfBlank(s);
    }
  }

  /** What a part of a bag means, with blanks wherever they may stand. */
  lemma EntryMeaning(before: string, after: string)
    requires '=' !in before
    ensures EntryOf(before + "=" + after) == Some((Trim(before), Trim(after)))
    ensures EntryOf(before) == if Blank(before) then None else Some((Trim(before), "true"))
  {
    hide Trim, TrimStart, TrimEnd, Find, Blank;
    TrimPair(before, after);
    var a, b := TrimStart(before), TrimEnd(after);
    FindAfter(a, b, '=');
    var core := a + ['='] + b;
    assert core[..|a|] == a && core[|a| + 1..] == b;
    TrimHalves(before, after);
    TrimBlank(before);
    TrimTrims(before);
  }

  lemma TrimPair(before: string, after: string)
    requires '=' !in before
    ensures Trim(before + "=" + after) == TrimStart(before) + ['='] + TrimEnd(after)
    ensures '=' !in TrimStart(before)
  {
    hide Trim;
    var x := TrimStartParts(before);
    var y := TrimEndParts(after);
    var core := TrimStart(before) + ['='] + TrimEnd(after);
    EqualsBetween(TrimStart(before), TrimEnd(after));
    assert before + "=" + after == x + core + y;
    TrimUnique(x, core, y);
  }

  lemma EqualsBetween(a: string, b: string)
    requires (a == "" || !IsSpace(a[0])) && (b == "" || !IsSpace(b[|b| - 1]))
    ensures Trimmed(a + ['='] + b)
  {
    var core := a + ['='] + b;
    assert core[0] == if a == "" then '=' else a[0];
    assert core[|core| - 1] == if b == "" then '=' else b[|b| - 1];
  }

  lemma TrimHalves(before: string, after: string)
    ensures Trim(TrimStart(before)) == Trim(before) && Trim(TrimEnd(after)) == Trim(after)
  {
    hide Trim;
    var x := TrimStartParts(before);
    var y := TrimEndParts(after);
    TrimLeading(x, TrimStart(before));
    TrimTrailing(TrimEnd(after), y);
  }

  lemma SameEntry(part: string, before: string, after: string)
    requires Blank(before) && Blank(after)
    ensures EntryOf(before + part + after) == EntryOf(part)
  {
    hide Trim, Find;
    TrimTrailing(before + part, after);
    TrimLeading(before, part);
  }

  lemma BlankHasNo(s: string, c: char)
    requires Blank(s) && !IsSpace(c)
    ensures c !in s
  {
  }

  /** Blanks around a bag do not matter. */
  lemma KvOfTrim(s: string)
    ensures KvOf(Trim(s)) == KvOf(s)
  {
    hide Trim, EntryOf, KvOf, Build, Split;
    var x, y := TrimParts(s);
    var t := Trim(s);
    BlankHasNo(x, ';');
    BlankHasNo(y, ';');
    assert s == x + (t + y);
    SplitFront(x, t + y, ';');
    SplitEnd(t, y, ';');
    var pieces, whole := Split(t, ';'), Split(s, ';');
    var n := |pieces| - 1;
    assert |whole| == n + 1;
    forall i | 0 <= i <= n ensures EntryOf(whole[i]) == EntryOf(pieces[i]) {
      var before, after := if i == 0 then x else "", if i == n then y else "";
      assert whole[i] == before + pieces[i] + after;
      SameEntry(pieces[i], before, after);
    }
    assert Entries(whole) == Entries(pieces);
    KvOfBuild(s);
    KvOfBuild(t);
  }

  function Part(key: string, value: string): string {
    if value == "true" then key else key + "=" + value
  }

  function Parts(keys: seq<string>, kv: Bag): (parts: seq<string>)
    requires forall k :: k in keys ==> k in kv
  {
    seq(|keys|, i requires 0 <= i < |keys| => Part(keys[i], kv[keys[i]]))
  }

  function KvText(kv: Bag): string {
    Join(Parts(SortedKeys(kv.Keys), kv), ';')
  }

  lemma NoKeys(kv: Bag)
    requires kv == map[]
    ensures KvText(kv) == ""
  {
  }

  method SerializeKvBag(kv: Bag) returns (text: string)
    ensures text == KvText(kv)
  {
    hide SortedKeys;
    if kv == map[] {
      NoKeys(kv);
      return "";
    }
    var keys := SortedKeys(kv.Keys);
    var parts: seq<string> := [];
    for i := 0 to |keys|
      invariant |parts| == i
      invariant forall j :: 0 <= j < i ==> parts[j] == Part(keys[j], kv[keys[j]])
    {
      assert keys[i] in kv;
      var k := keys[i];
      var v := kv[k];
      if v == "true" {
        parts := parts + [k];
      } else {
        parts := parts + [k + "=" + v];
      }
    }
    assert parts == Parts(keys, kv);
    text := Join(parts, ';');
  }

  /** Every bag that came out of `parse_kv_bag` has this shape. */
  ghost predicate CleanEntry(key: string, value: string) {
    Trimmed(key) && Trimmed(value) && ';' !in key && ';' !in value && '=' !in key
  }

  ghost predicate PlainKey(key: string) {
    Trimmed(key) && ';' !in key && '=' !in key
  }

  ghost predicate CleanBag(kv: Bag) {
    forall k :: k in kv ==> CleanEntry(k, kv[k])
  }

  lemma EntryClean(part: string)
    requires EntryOf(part).Some?
    requires ';' !in part
    ensures CleanEntry(EntryOf(part).value.0, EntryOf(part).value.1)
    ensures forall d :: d !in part && d !in "true" ==> d !in EntryOf(part).value.0 && d !in EntryOf(part).value.1
  {
    var p := Trim(part);
    TrimTrims(part);
    if '=' in p {
      var i := Find(p, '=');
      TrimTrims(p[..i]);
      TrimTrims(p[i + 1..]);
      FindFirst(p, '=');
    } else {
      assert Trimmed("true") && ';' !in "true";
    }
  }

  /** Whatever `parse_kv_bag` returns is clean, and invents no character outside "true". */
  lemma KvOfClean(s: string)
    ensures CleanBag(KvOf(s))
    ensures forall k, d :: k in KvOf(s) && d !in s && d !in "true" ==> d !in k && d !in KvOf(s)[k]
  {
    KvOfBuild(s);
    var parts := Split(s, ';');
    var kv := Build(Entries(parts));
    forall k | k in kv
      ensures CleanEntry(k, kv[k])
      ensures forall d :: d !in s && d !in "true" ==> d !in k && d !in kv[k]
    {
      var i := LastGiver(Entries(parts), k);
      SplitPieces(s, ';', i);
      EntryClean(parts[i]);
    }
  }

  /** The entry that printing loses: an empty key whose value is `true` prints as nothing. */
  predicate LostEntry(key: string, value: string) {
    key == "" && value == "true"
  }

  function DropLost(kv: Bag): Bag {
    map k | k in kv && !LostEntry(k, kv[k]) :: kv[k]
  }

  lemma DropLostSettles(kv: Bag)
    requires CleanBag(kv)
    ensures CleanBag(DropLost(kv)) && DropLost(DropLost(kv)) == DropLost(kv)
  {
  }

  lemma PairText(key: string, value: string)
    requires CleanEntry(key, value)
    ensures Trimmed(key + "=" + value) && ';' !in key + "=" + value
  {
    var p := key + "=" + value;
    assert p[0] == if key == "" then '=' else key[0];
    assert p[|p| - 1] == if value == "" then '=' else value[|value| - 1];
  }

  lemma PairEntry(key: string, value: string)
    requires CleanEntry(key, value)
    ensures EntryOf(key + "=" + value) == Some((key, value))
  {
    var p := key + "=" + value;
    PairText(key, value);
    TrimIdentity(p);
    assert p[|key|] == '=';
    FindAfter(key, value, '=');
    assert p[..|key|] == key && p[|key| + 1..] == value;
    TrimIdentity(key);
    TrimIdentity(value);
  }

  lemma PartEntry(key: string, value: string)
    requires CleanEntry(key, value)
    ensures Trimmed(Part(key, value)) && ';' !in Part(key, value)
    ensures EntryOf(Part(key, value)) == if LostEntry(key, value) then None else Some((key, value))
  {
    if value == "true" {
      TrimIdentity(key);
    } else {
      PairText(key, value);
      PairEntry(key, value);
    }
  }

  /** The entries behind a printed bag: one for each key, in key order, the lost one silent. */
  ghost predicate PrintedEntries(keys: seq<string>, kv: Bag, entries: seq<Option<(string, string)>>)
    requires forall k :: k in keys ==> k in kv
  {
    && |entries| == |keys|
    && forall i :: 0 <= i < |keys| ==>
         entries[i] == if LostEntry(keys[i], kv[keys[i]]) then None else Some((keys[i], kv[keys[i]]))
  }

  lemma BuildPrinted(keys: seq<string>, kv: Bag, entries: seq<Option<(string, string)>>)
    requires forall k :: k in keys <==> k in kv
    requires Distinct(keys)
    requires PrintedEntries(keys, kv, entries)
    ensures Build(entries) == DropLost(kv)
  {
    var bag := Build(entries);
    forall k | k in bag ensures k in DropLost(kv) {
      var i := LastGiver(entries, k);
    }
    forall k | k in DropLost(kv) ensures k in bag && bag[k] == kv[k] {
      var i :| 0 <= i < |keys| && keys[i] == k;
      BuildLast(entries, i, k);
    }
  }

  lemma PartsClean(keys: seq<string>, kv: Bag)
    requires CleanBag(kv)
    requires forall k :: k in keys ==> k in kv
    ensures forall i :: 0 <= i < |keys| ==> Trimmed(Parts(keys, kv)[i]) && ';' !in Parts(keys, kv)[i]
    ensures PrintedEntries(keys, kv, Entries(Parts(keys, kv)))
  {
    forall i | 0 <= i < |keys|
      ensures Trimmed(Parts(keys, kv)[i]) && ';' !in Parts(keys, kv)[i]
      ensures EntryOf(Parts(keys, kv)[i]) == if LostEntry(keys[i], kv[keys[i]]) then None else Some((keys[i], kv[keys[i]]))
    {
      assert keys[i] in kv;
      PartEntry(keys[i], kv[keys[i]]);
    }
  }

  /** Reparsing a printed clean bag gives the bag back, less the lost entry. */
  lemma KvRoundTripClean(kv: Bag)
    requires CleanBag(kv)
    ensures KvOf(KvText(kv)) == DropLost(kv)
    ensures Trimmed(KvText(kv))
  {
    var keys := SortedKeys(kv.Keys);
    var parts := Parts(keys, kv);
    PartsClean(keys, kv);
    JoinTrimmed(parts, ';');
    if keys == [] {
      assert kv.Keys == {};
      assert KvText(kv) == "";
      TrimIdentity("");
    } else {
      SplitJoin(parts, ';');
      KvOfBuild(KvText(kv));
      BuildPrinted(keys, kv, Entries(parts));
    }
  }

  /**
   Exact round trip: for every text, reparsing the serialisation of its bag gives the same
   map, less only the entry with empty key and value `true`.
   */
  lemma KvRoundTrip(s: string)
    ensures KvOf(KvText(KvOf(s))) == DropLost(KvOf(s))
    ensures KvOf(KvText(KvOf(s))) == KvOf(s) <==> !("" in KvOf(s) && KvOf(s)[""] == "true")
  {
    KvOfClean(s);
    KvRoundTripClean(KvOf(s));
  }

  /** A text with the lost entry. */
  lemma LostEntryOccurs()
    ensures KvOf("=true") == map["" := "true"] && KvOf(KvText(KvOf("=true"))) == map[]
  {
    var text := "=true";
    assert text == "" + "=" + "true";
    PairEntry("", "true");
    SplitWhole(text, ';');
    KvOfBuild(text);
    assert [Some(("", "true"))][..0] == [];
    KvRoundTrip(text);
  }

  /** The bag prints to a text free of any character that no key and no value holds. */
  lemma KvTextKeepsOut(kv: Bag, d: char)
    requires d != ';' && d != '='
    requires forall k :: k in kv ==> d !in k && d !in kv[k]
    ensures d !in KvText(kv)
  {
    hide SortedKeys, Join;
    var keys := SortedKeys(kv.Keys);
    forall i | 0 <= i < |keys| ensures d !in Parts(keys, kv)[i] {
      assert keys[i] in keys;
      assert keys[i] in kv;
    }
    JoinKeepsOut(Parts(keys, kv), ';', d);
  }

  /** And every character of a key or value shows, except those of a value `true`. */
  lemma KvTextShows(kv: Bag, key: string, d: char)
    requires key in kv
    ensures d in kv[key] && kv[key] != "true" ==> d in KvText(kv)
  {
    var keys := SortedKeys(kv.Keys);
    assert key in keys;
    var i :| 0 <= i < |keys| && keys[i] == key;
    if d in kv[key] && kv[key] != "true" {
      assert d in Parts(keys, kv)[i];
      JoinShows(Parts(keys, kv), ';', i, d);
    }
  }
}

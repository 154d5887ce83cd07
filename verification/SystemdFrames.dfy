/**
 Health frames of the systemd watcher (`emit_snapshot_frame` of crates/hawkd/src/systemd.rs). Unlike
 the gRPC frames, their bag prints the unit name behind the TTLs.
 */
module SystemdFrames {
  import opened Basics
  import opened Text
  import opened Ordering
  import opened Severity
  import opened KvBag
  import opened HawkFrame
  import opened Cuts
  import opened Decimal
  import opened Entities
  import opened Producers
  import opened Watchers

  // ----- What the value printed last can do to the others

  /** The entries that the part of a value behind its first semicolon turns into. */
  function Smuggled(value: string): Bag {
    Build(Entries(Split(value, ';')[1..]))
  }

  lemma SmuggledNone(value: string)
    requires ';' !in value
    ensures Smuggled(value) == map[]
  {
    SplitWhole(value, ';');
  }

  lemma EntriesConcat(a: seq<string>, b: seq<string>)
    ensures Entries(a + b) == Entries(a) + Entries(b)
  {
    hide EntryOf;
  }

  lemma KvOfTwo(a: string, b: string)
    ensures KvOf(a + [';'] + b) == KvOf(a) + KvOf(b)
  {
    hide KvOf, Split, Entries, Build;
    KvOfBuild(a);
    KvOfBuild(b);
    KvOfBuild(a + [';'] + b);
    SplitConcat(a, b, ';');
    EntriesConcat(Split(a, ';'), Split(b, ';'));
    BuildConcat(Entries(Split(a, ';')), Entries(Split(b, ';')));
  }

  /** Of an entry `key=value`, only its own key and what its value smuggles can come back. */
  lemma PairBag(key: string, value: string, other: string)
    requires PlainKey(key) && other != key
    ensures other in KvOf(key + "=" + value) <==> other in Smuggled(value)
    ensures other in Smuggled(value) ==> KvOf(key + "=" + value)[other] == Smuggled(value)[other]
  {
    hide EntryOf, KvOf, Split, Build;
    var p, own := key + "=" + value, Split(value, ';');
    KvOfBuild(p);
    SplitFront(key + "=", value, ';');
    var pieces := Split(p, ';');
    assert pieces[0] == key + "=" + own[0] && pieces[1..] == own[1..];
    PairGives(key, own[0], other);
    assert pieces == [pieces[0]] + pieces[1..];
    EntriesConcat([pieces[0]], pieces[1..]);
    BuildConcat(Entries([pieces[0]]), Entries(pieces[1..]));
    OneEntry(pieces[0], other);
  }

  /** The same for an entry as it is printed. */
  lemma PartBag(key: string, value: string, other: string)
    requires PlainKey(key) && other != key
    ensures other in KvOf(Part(key, value)) <==> other in Smuggled(value)
    ensures other in Smuggled(value) ==> KvOf(Part(key, value))[other] == Smuggled(value)[other]
  {
    hide KvOf, Smuggled, EntryOf;
    if value == "true" {
      assert ';' !in value;
      SmuggledNone(value);
      PartGives(key, value, other);
      NobodyGives([key], other);
      assert Join([key], ';') == key;
    } else {
      PairBag(key, value, other);
    }
  }

  lemma OneEntry(piece: string, other: string)
    requires !Gives(EntryOf(piece), other)
    ensures other !in Build(Entries([piece]))
  {
    hide EntryOf;
    var entries := Entries([piece]);
    if other in Build(entries) {
      var i := LastGiver(entries, other);
    }
  }

  /**
   Exactly what becomes of an entry printed before the last one, if `text` is what is there of that one:
   its own value, unless `text` brings another.
   */
  lemma LastTextDecides(kv: Bag, last: string, key: string, text: string)
    requires last in kv && (forall k :: k in kv ==> Le(k, last))
    requires key in kv && key != last && CleanEntry(key, kv[key]) && !LostEntry(key, kv[key])
    requires forall k :: k in kv && k != key && k != last && Le(key, k) ==> PlainKey(k) && ';' !in kv[k]
    ensures
      var back := KvOf(Join(PartsBefore(kv) + [text], ';'));
      && key in back
      && back[key] == if key in KvOf(text) then KvOf(text)[key] else kv[key]
  {
    hide KvOf, Le, SortedKeys, PlainKey, CleanEntry, LostEntry, Part, Join, EntryOf;
    var keys := SortedKeys(kv.Keys);
    var i := KeyBeforeLast(kv, last, key);
    PartsBehind(kv, last, key, keys, i);
    PartEntry(key, kv[key]);
    LastPartDecides(PartsBefore(kv) + [text], i, key, kv[key]);
  }

  /** All printed entries but the last. */
  function PartsBefore(kv: Bag): seq<string> {
    var keys := SortedKeys(kv.Keys);
    assert forall i :: 0 <= i < |keys| ==> keys[i] in keys;
    if keys == [] then [] else Parts(keys[..|keys| - 1], kv)
  }

  lemma LastPartDecides(parts: seq<string>, i: nat, key: string, value: string)
    requires i < |parts| - 1 && ';' !in parts[i] && EntryOf(parts[i]) == Some((key, value))
    requires forall j :: i < j < |parts| - 1 ==> ';' !in parts[j] && !Gives(EntryOf(parts[j]), key)
    ensures
      var back, last := KvOf(Join(parts, ';')), KvOf(parts[|parts| - 1]);
      key in back && back[key] == if key in last then last[key] else value
  {
    hide KvOf, EntryOf, Join;
    var n := |parts| - 1;
    var init := parts[..n];
    LastPieceWins(init, i, key, value);
    assert parts == init + [parts[n]];
    JoinConcat(init, [parts[n]], ';');
    JoinOne(parts[n]);
    KvOfTwo(Join(init, ';'), parts[n]);
  }

  lemma JoinOne(part: string)
    ensures Join([part], ';') == part
  {
  }

  lemma KeyBeforeLast(kv: Bag, last: string, key: string) returns (i: nat)
    requires last in kv && key in kv && key != last && (forall k :: k in kv ==> Le(k, last))
    ensures
      var keys := SortedKeys(kv.Keys);
      && i < |keys| - 1 && keys[i] == key && keys[|keys| - 1] == last
      && forall j :: 0 <= j < |keys| ==> keys[j] in kv
  {
    hide Le, SortedKeys;
    SortedLast(kv.Keys, last);
    var keys := SortedKeys(kv.Keys);
    assert key in keys;
    assert forall j :: 0 <= j < |keys| ==> keys[j] in keys;
    i :| 0 <= i < |keys| && keys[i] == key;
  }

  lemma PartsBehind(kv: Bag, last: string, key: string, keys: seq<string>, i: nat)
    requires keys == SortedKeys(kv.Keys) && i < |keys| - 1 && keys[i] == key && keys[|keys| - 1] == last
    requires forall j :: 0 <= j < |keys| ==> keys[j] in kv
    requires forall k :: k in kv && k != key && k != last && Le(key, k) ==> PlainKey(k) && ';' !in kv[k]
    ensures forall j :: i < j < |keys| - 1 ==>
              ';' !in Part(keys[j], kv[keys[j]]) && !Gives(EntryOf(Part(keys[j], kv[keys[j]])), key)
  {
    hide Le, SortedKeys, PlainKey, Part, EntryOf;
    forall j | i < j < |keys| - 1
      ensures ';' !in Part(keys[j], kv[keys[j]]) && !Gives(EntryOf(Part(keys[j], kv[keys[j]])), key)
    {
      var k := keys[j];
      assert k != key && k != last && Le(key, k);
      PartGives(k, kv[k], key);
      PartPlain(k, kv[k]);
    }
  }

  // ----- The snapshot frame

  datatype UnitState = UnitState(active: string, sub: string, load: string, desc: string)

  function SnapshotBag(unit: string, st: UnitState, cfg: WatchConfig): Bag {
    var kv: Bag := map["unit" := unit, "active" := st.active, "sub" := st.sub, "load" := st.load];
    var described: Bag := if st.desc != "" then kv["desc" := st.desc] else kv;
    described["ttl_stale_s" := Show(cfg.ttlStaleS)]["ttl_dead_s" := Show(cfg.ttlDeadS)]
  }

  /** The frame that `emit_snapshot_frame` prints; its level comes from the unit state. */
  function SnapshotFrame(unit: string, id: string, st: UnitState, level: Level, cfg: WatchConfig, now: Stamp): Frame {
    Frame(Some(now), "HEALTH", "systemd", id, level, st.active + ":" + st.sub, SnapshotBag(unit, st, cfg))
  }

  ghost predicate SnapshotKey(k: string) {
    k in {"active", "desc", "load", "sub", "ttl_dead_s", "ttl_stale_s", "unit"}
  }

  lemma SnapshotKeys(unit: string, st: UnitState, cfg: WatchConfig)
    ensures forall k :: k in SnapshotBag(unit, st, cfg) ==> SnapshotKey(k)
    ensures
      var kv := SnapshotBag(unit, st, cfg);
      && "active" in kv && "unit" in kv && kv["unit"] == unit
      && "ttl_stale_s" in kv && kv["ttl_stale_s"] == Show(cfg.ttlStaleS)
      && "ttl_dead_s" in kv && kv["ttl_dead_s"] == Show(cfg.ttlDeadS)
  {
    hide Show;
  }

  lemma SnapshotKeyOrder(k: string)
    requires SnapshotKey(k)
    ensures Le(k, "unit")
    ensures k !in {"ttl_dead_s", "ttl_stale_s", "unit"} ==> !Le("ttl_dead_s", k) && !Le("ttl_stale_s", k)
    ensures !Le("ttl_stale_s", "ttl_dead_s") && PlainKey("unit")
  {
    hide Le;
    LeTotal("unit", "unit");
    if k != "unit" {
      LeAt(k, "unit", 0);
    }
    if k !in {"ttl_dead_s", "ttl_stale_s", "unit"} {
      LeAt(k, "ttl_dead_s", 0);
      LeAt(k, "ttl_stale_s", 0);
    }
    assert "ttl_dead_s"[..4] == "ttl_stale_s"[..4];
    LeAt("ttl_dead_s", "ttl_stale_s", 4);
  }

  /** What a mirror reads for a TTL: the configured one, unless the unit name smuggles in another. */
  function Reread(unit: string, key: string, configured: int): string {
    if key in Smuggled(unit) then Smuggled(unit)[key] else Show(configured)
  }

  /** What is there of the bag behind the TTLs: the unit name, up to a tab. */
  function UnitText(unit: string): string {
    if '\t' in unit then "unit" + "=" + UpToTab(unit) else Part("unit", unit)
  }

  lemma UnitBag(unit: string, key: string)
    requires key != "unit"
    ensures key in KvOf(UnitText(unit)) <==> key in Smuggled(UpToTab(unit))
    ensures key in Smuggled(UpToTab(unit)) ==> KvOf(UnitText(unit))[key] == Smuggled(UpToTab(unit))[key]
  {
    hide KvOf, Smuggled, UpToTab, Part;
    SnapshotKeyOrder("unit");
    if '\t' in unit {
      PairBag("unit", UpToTab(unit), key);
    } else {
      UpToTabWhole(unit);
      PartBag("unit", unit, key);
    }
  }

  /** The bag of a snapshot without tabs before the unit name, as far as it is read. */
  lemma SnapshotText(unit: string, st: UnitState, cfg: WatchConfig)
    requires '\t' !in st.active && '\t' !in st.sub && '\t' !in st.load && '\t' !in st.desc
    ensures
      var kv := SnapshotBag(unit, st, cfg);
      UpToTab(KvText(kv)) == Join(PartsBefore(kv) + [UnitText(unit)], ';')
  {
    hide KvText, UpToTab, Le, Join, SnapshotBag, Show, SnapshotKey, PartsBefore, UnitText;
    var kv := SnapshotBag(unit, st, cfg);
    SnapshotKeys(unit, st, cfg);
    forall k | k in kv ensures Le(k, "unit") {
      SnapshotKeyOrder(k);
    }
    SnapshotTabs(unit, st, cfg);
    UnitIsLast(kv);
    if '\t' in unit {
      UnitCut(kv);
    } else {
      UnitWhole(kv);
    }
  }

  lemma UnitCut(kv: Bag)
    requires "unit" in kv && '\t' in kv["unit"] && forall k :: k in kv ==> Le(k, "unit")
    requires forall k :: k in kv ==> '\t' !in k && (k != "unit" ==> '\t' !in kv[k])
    ensures UpToTab(KvText(kv)) == Join(PartsBefore(kv) + [UnitText(kv["unit"])], ';')
  {
    hide KvText, UpToTab, Le, SortedKeys, Part, Join;
    UnitIsLast(kv);
    var keys := SortedKeys(kv.Keys);
    BagUpToTab(kv, "unit", keys[..|keys| - 1]);
  }

  lemma UnitWhole(kv: Bag)
    requires "unit" in kv && forall k :: k in kv ==> Le(k, "unit")
    requires forall k :: k in kv ==> '\t' !in k && '\t' !in kv[k]
    ensures UpToTab(KvText(kv)) == Join(PartsBefore(kv) + [UnitText(kv["unit"])], ';')
  {
    hide KvText, UpToTab, Le, SortedKeys, Part, Join, PartsBefore;
    UnitIsLast(kv);
    KvTextKeepsOut(kv, '\t');
    UpToTabWhole(KvText(kv));
    PartsSplit(kv);
  }

  lemma SnapshotTabs(unit: string, st: UnitState, cfg: WatchConfig)
    requires '\t' !in st.active && '\t' !in st.sub && '\t' !in st.load && '\t' !in st.desc
    ensures
      var kv := SnapshotBag(unit, st, cfg);
      forall k :: k in kv ==> '\t' !in k && (k != "unit" ==> '\t' !in kv[k])
  {
    hide Show, SnapshotKey;
    ShowIsPlain(cfg.ttlStaleS);
    ShowIsPlain(cfg.ttlDeadS);
    SnapshotKeys(unit, st, cfg);
    var kv := SnapshotBag(unit, st, cfg);
    forall k | k in kv ensures '\t' !in k {
      SnapshotKeyTabFree(k);
    }
  }

  lemma UnitIsLast(kv: Bag)
    requires "unit" in kv && forall k :: k in kv ==> Le(k, "unit")
    ensures
      var keys := SortedKeys(kv.Keys);
      var n := |keys| - 1;
      && n >= 0 && keys[n] == "unit"
      && forall k :: k in keys[..n] <==> k in kv && k != "unit" && Le(k, "unit")
  {
    hide Le, SortedKeys;
    SortedLast(kv.Keys, "unit");
    var keys := SortedKeys(kv.Keys);
    var n := |keys| - 1;
    forall k | k in kv && k != "unit" ensures k in keys[..n] {
      assert k in keys;
      var i :| 0 <= i < |keys| && keys[i] == k;
      assert keys[..n][i] == k;
    }
    forall k | k in keys[..n] ensures k in kv && k != "unit" {
      var i :| 0 <= i < n && keys[i] == k;
      assert k in keys;
    }
  }

  lemma PartsSplit(kv: Bag)
    requires "unit" in kv && SortedKeys(kv.Keys) != [] && SortedKeys(kv.Keys)[|SortedKeys(kv.Keys)| - 1] == "unit"
    ensures KvText(kv) == Join(PartsBefore(kv) + [Part("unit", kv["unit"])], ';')
  {
    hide SortedKeys, Join, Part;
    var keys := SortedKeys(kv.Keys);
    assert forall i :: 0 <= i < |keys| ==> keys[i] in keys;
    assert Parts(keys, kv) == PartsBefore(kv) + [Part("unit", kv["unit"])];
  }

  lemma SnapshotTtl(unit: string, st: UnitState, cfg: WatchConfig)
    ensures
      var back := KvOf(Join(PartsBefore(SnapshotBag(unit, st, cfg)) + [UnitText(unit)], ';'));
      && "ttl_stale_s" in back && back["ttl_stale_s"] == Reread(UpToTab(unit), "ttl_stale_s", cfg.ttlStaleS)
      && "ttl_dead_s" in back && back["ttl_dead_s"] == Reread(UpToTab(unit), "ttl_dead_s", cfg.ttlDeadS)
  {
    hide KvOf, Join, Show, PlainKey, LostEntry, CleanEntry, Le, Smuggled, SnapshotBag, SnapshotKey, UnitText, UpToTab, PartsBefore;
    var kv := SnapshotBag(unit, st, cfg);
    SnapshotKeys(unit, st, cfg);
    TtlKeys();
    TtlEntryClean("ttl_stale_s", cfg.ttlStaleS);
    TtlEntryClean("ttl_dead_s", cfg.ttlDeadS);
    ShowIsPlain(cfg.ttlStaleS);
    forall k | k in kv ensures Le(k, "unit") {
      SnapshotKeyOrder(k);
    }
    SnapshotUnitKey();
    SnapshotKeyOrder("unit");
    forall k | k in kv && k != "ttl_stale_s" && k != "unit" ensures !Le("ttl_stale_s", k) {
      SnapshotKeyOrder(k);
    }
    forall k | k in kv && k != "ttl_dead_s" && k != "unit" && Le("ttl_dead_s", k) ensures PlainKey(k) && ';' !in kv[k] {
      SnapshotKeyOrder(k);
    }
    LastTextDecides(kv, "unit", "ttl_stale_s", UnitText(unit));
    LastTextDecides(kv, "unit", "ttl_dead_s", UnitText(unit));
    UnitBag(unit, "ttl_stale_s");
    UnitBag(unit, "ttl_dead_s");
  }

  lemma SnapshotUnitKey()
    ensures SnapshotKey("unit")
  {
  }

  /** A TTL text as the mirror takes it: a positive integer, or else its own default. */
  function Understood(text: string, fallback: int): int {
    match ParseI64(text)
    case Some(n) => if n > 0 then n else fallback
    case None => fallback
  }

  lemma TtlUnderstood(kv: Bag, key: string, fallback: int)
    requires key in kv
    ensures TtlOf(kv, key).UnwrapOr(fallback) == Understood(kv[key], fallback)
  {
    hide ParseI64;
  }

  lemma SnapshotKeyTabFree(k: string)
    requires SnapshotKey(k)
    ensures '\t' !in k
  {
  }

  /** What a mirror reads of a snapshot's bag when a tab ends the description, or the load state. */
  function DescBag(st: UnitState): Bag {
    KvOf(Join([Part("active", st.active), "desc=" + UpToTab(st.desc)], ';'))
  }

  function LoadBag(st: UnitState): Bag {
    var active, load := Part("active", st.active), "load=" + UpToTab(st.load);
    KvOf(Join(if st.desc == "" then [active, load] else [active, Part("desc", st.desc), load], ';'))
  }

  /** The TTL that a mirror takes from a snapshot. */
  function SnapshotTtlS(unit: string, st: UnitState, key: string, configured: int, fallback: int): int {
    var pieces := Split(st.active + ":" + st.sub, '\t');
    if |pieces| > 1 then TtlOf(KvOf(pieces[1]), key).UnwrapOr(fallback)
    else if '\t' in st.desc then TtlOf(DescBag(st), key).UnwrapOr(fallback)
    else if '\t' in st.load then TtlOf(LoadBag(st), key).UnwrapOr(fallback)
    else Understood(Reread(UpToTab(unit), key, configured), fallback)
  }

  /**
   The systemd case, exactly, whatever the unit says of itself. Without a tab before the unit name the
   mirror judges by the configured TTLs, unless the unit name, up to a tab, carries a `ttl_..` entry
   behind a semicolon. A tab in the message column puts the text behind it in the place of the bag; a tab
   in the description or the load state ends the bag before the TTLs.
   */
  lemma SnapshotTtlReachesMirror(
    w: World, unit: string, id: string, st: UnitState, level: Level, cfg: WatchConfig, now: Stamp, lens: Lens)
    requires Sane(w) && Formattable(w.codec, now) && '\t' !in id
    ensures JudgedWith(
      w, FrameOut(SnapshotFrame(unit, id, st, level, cfg, now), now), lens, now,
      SnapshotTtlS(unit, st, "ttl_stale_s", cfg.ttlStaleS, lens.staleS),
      SnapshotTtlS(unit, st, "ttl_dead_s", cfg.ttlDeadS, lens.deadS))
  {
    hide Parse, ToTsvLine, KvText, KvOf, LivenessAt, TtlOf, Reread, Understood, SnapshotBag, UpToTab, PrintedColumns, Split,
      DescBag, LoadBag, ParseLevel, Trim;
    var f, msg := SnapshotFrame(unit, id, st, level, cfg, now), st.active + ":" + st.sub;
    FixedHead();
    RereadColumns(w.codec, f, now);
    SplitOne(msg, '\t');
    if '\t' in msg {
      MessageColumns(f);
    } else {
      assert '\t' !in st.active && '\t' !in st.sub;
      TabFreeColumns(f);
      if '\t' in st.desc {
        DescCut(unit, st, cfg);
      } else if '\t' in st.load {
        LoadCut(unit, st, cfg);
      } else {
        SnapshotText(unit, st, cfg);
        SnapshotTtl(unit, st, cfg);
        var back := KvOf(Join(PartsBefore(f.kv) + [UnitText(unit)], ';'));
        TtlUnderstood(back, "ttl_stale_s", lens.staleS);
        TtlUnderstood(back, "ttl_dead_s", lens.deadS);
      }
    }
  }

  lemma FixedHead()
    ensures '\t' !in "HEALTH" && '\t' !in "systemd"
  {
  }

  lemma DescKeys(k: string)
    requires SnapshotKey(k)
    ensures k != "desc" && Le(k, "desc") <==> k == "active"
    ensures k != "load" && Le(k, "load") <==> k == "active" || k == "desc"
  {
    hide Le;
    if k == "active" {
      LeAt(k, "desc", 0);
      LeAt(k, "load", 0);
    } else if k == "desc" {
      LeAt(k, "load", 0);
    } else {
      LeAt("desc", k, 0);
      if k != "load" {
        LeAt("load", k, 0);
      }
    }
  }

  lemma SnapshotEntries(unit: string, st: UnitState, cfg: WatchConfig)
    ensures
      var kv := SnapshotBag(unit, st, cfg);
      && "active" in kv && kv["active"] == st.active && "load" in kv && kv["load"] == st.load
      && ("desc" in kv <==> st.desc != "") && (st.desc != "" ==> kv["desc"] == st.desc)
  {
    hide Show;
  }

  lemma SnapshotWords()
    ensures '\t' !in "active" && '\t' !in "desc" && '\t' !in "load" && ';' !in "desc="
    ensures "desc" + "=" == "desc=" && "load" + "=" == "load="
    ensures PlainKey("active") && PlainKey("desc")
  {
  }

  lemma DescCut(unit: string, st: UnitState, cfg: WatchConfig)
    requires '\t' !in st.active && '\t' in st.desc
    ensures KvOf(UpToTab(KvText(SnapshotBag(unit, st, cfg)))) == DescBag(st)
  {
    hide KvText, KvOf, UpToTab, Le, SnapshotBag, Join, Part, SnapshotKey, PlainKey;
    var kv, before := SnapshotBag(unit, st, cfg), ["active"];
    SnapshotKeys(unit, st, cfg);
    SnapshotEntries(unit, st, cfg);
    SnapshotWords();
    forall k | k in kv ensures k != "desc" && Le(k, "desc") <==> k == "active" {
      DescKeys(k);
    }
    BagUpToTab(kv, "desc", before);
    assert Parts(before, kv) == [Part("active", st.active)];
    assert [Part("active", st.active)] + ["desc=" + UpToTab(st.desc)] == [Part("active", st.active), "desc=" + UpToTab(st.desc)];
  }

  lemma LoadCut(unit: string, st: UnitState, cfg: WatchConfig)
    requires '\t' !in st.active && '\t' !in st.desc && '\t' in st.load
    ensures KvOf(UpToTab(KvText(SnapshotBag(unit, st, cfg)))) == LoadBag(st)
  {
    hide KvText, KvOf, UpToTab, Le, SnapshotBag, Join, Part, SnapshotKey, PlainKey;
    var kv, before := SnapshotBag(unit, st, cfg), if st.desc == "" then ["active"] else ["active", "desc"];
    SnapshotKeys(unit, st, cfg);
    SnapshotEntries(unit, st, cfg);
    SnapshotWords();
    forall k | k in kv ensures k != "load" && Le(k, "load") <==> k == "active" || k == "desc" {
      DescKeys(k);
    }
    LoadOrder();
    BagUpToTab(kv, "load", before);
    var active, load := Part("active", st.active), "load=" + UpToTab(st.load);
    if st.desc == "" {
      assert Parts(before, kv) + [load] == [active, load];
    } else {
      assert Parts(before, kv) + [load] == [active, Part("desc", st.desc), load];
    }
  }

  lemma LoadOrder()
    ensures Le("active", "desc") && "active" != "desc"
  {
    LeAt("active", "desc", 0);
  }

  /** Without a semicolon in the unit name the configured TTLs arrive, as for gRPC. */
  lemma PlainUnitKeepsTtl(unit: string, key: string, configured: int, fallback: int)
    requires ';' !in unit && IsI64(configured)
    ensures Understood(Reread(unit, key, configured), fallback) == Effective(configured, fallback)
  {
    hide Show, ParseI64;
    SmuggledNone(unit);
    ParseShow(configured);
  }

  /** With one, a unit name can replace the TTL that hawkd was configured with by any other. */
  lemma UnitCanReplaceTtl(name: string, configured: int, other: int, fallback: int)
    requires ';' !in name && IsI64(other) && other > 0
    ensures
      var unit := name + [';'] + "ttl_stale_s=" + Show(other);
      Understood(Reread(unit, "ttl_stale_s", configured), fallback) == other
  {
    var piece := "ttl_stale_s=" + Show(other);
    var unit := name + [';'] + "ttl_stale_s=" + Show(other);
    ReplacingPiece(other);
    assert unit == name + [';'] + piece;
    SplitWhole(name, ';');
    SplitWhole(piece, ';');
    SplitConcat(name, piece, ';');
    assert Split(unit, ';')[1..] == [piece];
    var entries := Entries([piece]);
    assert entries == [Some(("ttl_stale_s", Show(other)))];
    BuildLast(entries, 0, "ttl_stale_s");
    ParseShow(other);
  }

  lemma ReplacingPiece(n: int)
    ensures ';' !in "ttl_stale_s=" + Show(n)
    ensures EntryOf("ttl_stale_s=" + Show(n)) == Some(("ttl_stale_s", Show(n)))
  {
    hide Show, EntryOf;
    TtlKeys();
    TtlEntryClean("ttl_stale_s", n);
    PairText("ttl_stale_s", Show(n));
    PairEntry("ttl_stale_s", Show(n));
    assert "ttl_stale_s" + "=" == "ttl_stale_s=";
  }

  lemma PlainSnapshotTtl(unit: string, st: UnitState, key: string, configured: int, fallback: int)
    requires TabFreeUnit(unit, st) && ';' !in unit && IsI64(configured)
    ensures SnapshotTtlS(unit, st, key, configured, fallback) == Effective(configured, fallback)
  {
    hide Show, KvOf, Reread, Understood;
    SplitWhole(st.active + ":" + st.sub, '\t');
    UpToTabWhole(unit);
    PlainUnitKeepsTtl(unit, key, configured, fallback);
  }

  ghost predicate TabFreeUnit(unit: string, st: UnitState) {
    '\t' !in unit && '\t' !in st.active && '\t' !in st.sub && '\t' !in st.load && '\t' !in st.desc
  }

  /**
   `emit_snapshot_frame`: the frame it prints. Every mirror judges the snapshot of a tab-free unit, as of
   `now`, with the configured TTLs, if the unit name has no semicolon.
   */
  method EmitSnapshotFrame(unit: string, id: string, st: UnitState, level: Level, cfg: WatchConfig, now: Stamp)
    returns (f: Frame)
    ensures f == SnapshotFrame(unit, id, st, level, cfg, now)
    ensures f.ts == Some(now) && f.kind == "HEALTH" && f.scope == "systemd" && f.id == id && f.level == level
    ensures "desc" in f.kv <==> st.desc != ""
    ensures f.kv["unit"] == unit && f.kv["active"] == st.active && f.kv["sub"] == st.sub && f.kv["load"] == st.load
    ensures TabFreeUnit(unit, st) && '\t' !in id && ';' !in unit && IsI64(cfg.ttlStaleS) && IsI64(cfg.ttlDeadS) ==>
      forall w: World, lens: Lens :: Sane(w) && Formattable(w.codec, now) ==>
        JudgedWith(w, FrameOut(f, now), lens, now, Effective(cfg.ttlStaleS, lens.staleS), Effective(cfg.ttlDeadS, lens.deadS))
  {
    hide JudgedWith, TabFreeUnit, Sane, Show, SnapshotTtlS;
    var kv: Bag := map[];
    kv := kv["unit" := unit];
    kv := kv["active" := st.active];
    kv := kv["sub" := st.sub];
    kv := kv["load" := st.load];
    if st.desc != "" {
      kv := kv["desc" := st.desc];
    }
    kv := kv["ttl_stale_s" := Show(cfg.ttlStaleS)];
    kv := kv["ttl_dead_s" := Show(cfg.ttlDeadS)];
    assert kv == SnapshotBag(unit, st, cfg);
    f := Frame(Some(now), "HEALTH", "systemd", id, level, st.active + ":" + st.sub, kv);
    if TabFreeUnit(unit, st) && '\t' !in id && ';' !in unit && IsI64(cfg.ttlStaleS) && IsI64(cfg.ttlDeadS) {
      forall w: World, lens: Lens | Sane(w) && Formattable(w.codec, now)
        ensures JudgedWith(
          w, FrameOut(f, now), lens, now, Effective(cfg.ttlStaleS, lens.staleS), Effective(cfg.ttlDeadS, lens.deadS))
      {
        SnapshotTtlReachesMirror(w, unit, id, st, level, cfg, now, lens);
        PlainSnapshotTtl(unit, st, "ttl_stale_s", cfg.ttlStaleS, lens.staleS);
        PlainSnapshotTtl(unit, st, "ttl_dead_s", cfg.ttlDeadS, lens.deadS);
      }
    }
  }

  /** So a tab in a description without semicolons makes the mirror fall back to its own TTLs. */
  lemma DescriptionTabLosesTtl(unit: string, st: UnitState, key: string, configured: int, fallback: int)
    requires '\t' !in st.active && '\t' !in st.sub && '\t' in st.desc && ';' !in st.active && ';' !in UpToTab(st.desc)
    requires key != "active" && key != "desc"
    ensures SnapshotTtlS(unit, st, key, configured, fallback) == fallback
  {
    hide KvOf, UpToTab, Join, PlainKey, EntryOf, Understood, Reread;
    SplitWhole(st.active + ":" + st.sub, '\t');
    var front := UpToTab(st.desc);
    SnapshotWords();
    PartGives("active", st.active, key);
    PartPlain("active", st.active);
    PairGives("desc", front, key);
    NobodyGives([Part("active", st.active), "desc=" + front], key);
  }
}

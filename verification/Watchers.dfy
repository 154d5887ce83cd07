/**
 Health frames of the gRPC watcher (`emit_status_frame` and `emit_error_frame` of
 crates/hawkd/src/grpc_health.rs), and what a mirror makes of the TTLs they carry.
 */
module Watchers {
  import opened Basics
  import opened Text
  import opened Ordering
  import opened Severity
  import opened KvBag
  import opened HawkFrame
  import opened Cuts
  import opened Decimal
  import opened Entities
  import opened Producers
  import EndToEnd

  // ----- Which entries of a bag survive print and parse, whatever the others hold

  lemma PairTrim(key: string, value: string)
    requires PlainKey(key)
    ensures Trim(key + "=" + value) == key + ['='] + TrimEnd(value)
  {
    hide Trim;
    var after := TrimEndParts(value);
    var core := key + ['='] + TrimEnd(value);
    assert core[0] == if key == "" then '=' else key[0];
    assert core[|core| - 1] == if TrimEnd(value) == "" then '=' else TrimEnd(value)[|TrimEnd(value)| - 1];
    assert "" + core + after == key + "=" + value;
    TrimUnique("", core, after);
  }

  lemma PairGives(key: string, value: string, other: string)
    requires PlainKey(key) && other != key
    ensures !Gives(EntryOf(key + "=" + value), other)
  {
    hide Trim, TrimEnd, Find;
    PairTrim(key, value);
    TrimIdentity(key);
    FindAfter(key, TrimEnd(value), '=');
    assert (key + ['='] + TrimEnd(value))[..|key|] == key;
  }

  /** A printed part can only give its own key, however its value is spaced. */
  lemma PartGives(key: string, value: string, other: string)
    requires PlainKey(key) && other != key
    ensures !Gives(EntryOf(Part(key, value)), other)
  {
    if value == "true" {
      TrimIdentity(key);
    } else {
      PairGives(key, value, other);
    }
  }

  /** The entries of `pre ; part ; post`, where nothing is known of `pre`. */
  lemma EntriesAround(pre: seq<string>, part: string, post: seq<string>) returns (front: seq<string>)
    requires ';' !in part && forall i :: 0 <= i < |post| ==> ';' !in post[i]
    ensures Split(Join(pre + [part] + post, ';'), ';') == front + [part] + post
  {
    hide Split, Join;
    var tail := [part] + post;
    assert forall i :: 0 <= i < |tail| ==> ';' !in tail[i];
    SplitJoin(tail, ';');
    if pre == [] {
      front := [];
      assert pre + [part] + post == tail;
    } else {
      front := Split(Join(pre, ';'), ';');
      assert pre + [part] + post == pre + tail;
      JoinConcat(pre, tail, ';');
      SplitConcat(Join(pre, ';'), Join(tail, ';'), ';');
    }
  }

  /**
   An entry survives if it is clean itself and the entries that print behind it have plain keys and
   no semicolon: those printed before it may hold anything.
   */
  lemma KeySurvives(kv: Bag, key: string)
    requires key in kv && CleanEntry(key, kv[key]) && !LostEntry(key, kv[key])
    requires forall k :: k in kv && k != key && Le(key, k) ==> PlainKey(k) && ';' !in kv[k]
    ensures key in KvOf(KvText(kv)) && KvOf(KvText(kv))[key] == kv[key]
  {
    hide EntryOf, CleanEntry, Le, Part, KvOf, PlainKey, SortedKeys, LostEntry;
    var keys := SortedKeys(kv.Keys);
    assert key in keys;
    var i :| 0 <= i < |keys| && keys[i] == key;
    var parts := Parts(keys, kv);
    PartEntry(key, kv[key]);
    forall j | i < j < |parts| ensures ';' !in parts[j] && !Gives(EntryOf(parts[j]), key) {
      var k := keys[j];
      assert k in kv && k != key && Le(key, k);
      PartGives(k, kv[k], key);
      PartPlain(k, kv[k]);
    }
    LastPieceWins(parts, i, key, kv[key]);
  }

  lemma LastPieceWins(parts: seq<string>, i: nat, key: string, value: string)
    requires i < |parts| && ';' !in parts[i] && EntryOf(parts[i]) == Some((key, value))
    requires forall j :: i < j < |parts| ==> ';' !in parts[j] && !Gives(EntryOf(parts[j]), key)
    ensures key in KvOf(Join(parts, ';')) && KvOf(Join(parts, ';'))[key] == value
  {
    hide EntryOf, KvOf, Split, Join, Build;
    var pre, post := parts[..i], parts[i + 1..];
    assert parts == pre + [parts[i]] + post;
    var front := EntriesAround(pre, parts[i], post);
    KvOfBuild(Join(parts, ';'));
    var entries := Entries(front + [parts[i]] + post);
    var n := |front|;
    assert entries[n] == EntryOf(parts[i]);
    forall j | n < j < |entries| ensures !Gives(entries[j], key) {
      assert entries[j] == EntryOf(parts[i + j - n]);
    }
    BuildLast(entries, n, key);
  }

  lemma PartPlain(key: string, value: string)
    requires PlainKey(key) && ';' !in value
    ensures ';' !in Part(key, value)
  {
  }

  // ----- TTLs

  ghost predicate TabFree(f: Frame) {
    && TabFreeHead(f)
    && forall k :: k in f.kv ==> '\t' !in k && '\t' !in f.kv[k]
  }

  lemma TabFreeReparse(codec: TimeCodec, f: Frame, now: Stamp)
    requires Lawful(codec) && Formattable(codec, Stamped(f, now)) && TabFree(f)
    ensures
      var p := Parse(codec, ToTsvLine(codec, f, now));
      p.Accepted? && p.frame.ts == Some(Stamped(f, now)) && p.frame.kv == KvOf(KvText(f.kv))
  {
    hide Parse, ToTsvLine, KvText, KvOf, UpToTab;
    KvTextKeepsOut(f.kv, '\t');
    UpToTabWhole(KvText(f.kv));
    CutReparse(codec, f, now);
  }

  /** A bag that carries TTLs: both entries, and whatever prints behind the first of them is plain. */
  ghost predicate CarriesTtl(kv: Bag, staleS: int, deadS: int) {
    && "ttl_stale_s" in kv && kv["ttl_stale_s"] == Show(staleS)
    && "ttl_dead_s" in kv && kv["ttl_dead_s"] == Show(deadS)
    && (forall k :: k in kv && Le("ttl_dead_s", k) ==> PlainKey(k) && ';' !in kv[k])
  }

  lemma {:induction false} LeAt(a: string, b: string, n: nat)
    requires n < |a| && n < |b| && a[..n] == b[..n] && a[n] < b[n]
    ensures Le(a, b) && !Le(b, a)
  {
    if n > 0 {
      assert a[0] == a[..n][0] == b[..n][0] == b[0];
      assert a[1..][..n - 1] == a[..n][1..] && b[1..][..n - 1] == b[..n][1..];
      LeAt(a[1..], b[1..], n - 1);
    }
  }

  lemma TtlKeys()
    ensures PlainKey("ttl_stale_s") && PlainKey("ttl_dead_s") && Le("ttl_dead_s", "ttl_stale_s")
    ensures "ttl_stale_s" != "ttl_dead_s"
  {
    hide Le;
    assert "ttl_dead_s"[..4] == "ttl_stale_s"[..4];
    LeAt("ttl_dead_s", "ttl_stale_s", 4);
  }

  lemma TtlEntryClean(key: string, n: int)
    requires PlainKey(key)
    ensures CleanEntry(key, Show(n)) && !LostEntry(key, Show(n))
  {
    hide Show;
    ShowIsPlain(n);
  }

  /** The configured TTL if it is positive, else the mirror's default. */
  function Effective(configured: int, fallback: int): int {
    if configured > 0 then configured else fallback
  }

  lemma TtlRead(kv: Bag, key: string, n: int, fallback: int)
    requires IsI64(n) && key in kv && kv[key] == Show(n)
    ensures TtlOf(kv, key).UnwrapOr(fallback) == Effective(n, fallback)
  {
    hide Show, ParseI64;
    ParseShow(n);
  }

  lemma TtlSurvives(kv: Bag, staleS: int, deadS: int)
    requires CarriesTtl(kv, staleS, deadS)
    ensures
      var back := KvOf(KvText(kv));
      && "ttl_stale_s" in back && back["ttl_stale_s"] == Show(staleS)
      && "ttl_dead_s" in back && back["ttl_dead_s"] == Show(deadS)
  {
    hide KvOf, KvText, Show, PlainKey, LostEntry, CleanEntry, Le;
    TtlKeys();
    TtlEntryClean("ttl_stale_s", staleS);
    TtlEntryClean("ttl_dead_s", deadS);
    forall k | k in kv && k != "ttl_stale_s" && Le("ttl_stale_s", k) ensures PlainKey(k) && ';' !in kv[k] {
      LeTransitive("ttl_dead_s", "ttl_stale_s", k);
    }
    KeySurvives(kv, "ttl_stale_s");
    KeySurvives(kv, "ttl_dead_s");
  }

  /** A mirror accepts the message and judges its row as of `seen` with these TTLs. */
  ghost predicate JudgedWith(w: World, m: Message, lens: Lens, seen: Stamp, staleS: int, deadS: int) {
    && m.FrameOut? && EndToEnd.HeardAs(w, m).Accepted?
    && LivenessOf(lens, EndToEnd.RowOf(w, m)) == LivenessAt(seen, lens.now, staleS, deadS)
  }

  /** Any frame at all is judged by the TTLs in the column that a reader takes for its bag. */
  lemma JudgedByColumn(w: World, f: Frame, now: Stamp, lens: Lens)
    requires Sane(w) && Formattable(w.codec, Stamped(f, now))
    ensures
      var kv := KvOf(PrintedColumns(f)[5]);
      JudgedWith(w, FrameOut(f, now), lens, Stamped(f, now),
                 TtlOf(kv, "ttl_stale_s").UnwrapOr(lens.staleS), TtlOf(kv, "ttl_dead_s").UnwrapOr(lens.deadS))
  {
    hide Parse, ToTsvLine, KvOf, LivenessAt, TtlOf, PrintedColumns, Trim, ParseLevel;
    RereadColumns(w.codec, f, now);
  }

  /**
   TTLs end to end: a mirror that rereads a health frame judges its liveness with the TTLs hawkd was
   configured with where they are positive, and with its own defaults elsewhere; and from the instant
   the spine stamped.
   */
  lemma MirrorUsesTtl(w: World, f: Frame, now: Stamp, staleS: int, deadS: int, lens: Lens)
    requires Sane(w) && Formattable(w.codec, Stamped(f, now)) && IsI64(staleS) && IsI64(deadS)
    requires TabFree(f) && CarriesTtl(f.kv, staleS, deadS)
    ensures JudgedWith(
      w, FrameOut(f, now), lens, Stamped(f, now), Effective(staleS, lens.staleS), Effective(deadS, lens.deadS))
  {
    hide Parse, ToTsvLine, KvText, KvOf, LivenessAt, Show, TtlOf, CarriesTtl, TabFree;
    TabFreeReparse(w.codec, f, now);
    TtlSurvives(f.kv, staleS, deadS);
    var back := KvOf(KvText(f.kv));
    TtlRead(back, "ttl_stale_s", staleS, lens.staleS);
    TtlRead(back, "ttl_dead_s", deadS, lens.deadS);
  }

  // ----- gRPC health frames

  datatype WatchSpec = WatchSpec(endpoint: string, service: string, id: string)

  datatype WatchConfig = WatchConfig(ttlStaleS: int, ttlDeadS: int)

  datatype ServingStatus = Unknown | Serving | NotServing | ServiceUnknown {
    /** The `{:?}` text. */
    function Name(): string {
      match this
      case Unknown => "Unknown"
      case Serving => "Serving"
      case NotServing => "NotServing"
      case ServiceUnknown => "ServiceUnknown"
    }

    function Verdict(): (Level, string) {
      match this
      case Serving => (Ok, "SERVING")
      case NotServing => (Fail, "NOT_SERVING")
      case ServiceUnknown => (Warn, "SERVICE_UNKNOWN")
      case Unknown => (Level.Unknown, "UNKNOWN")
    }
  }

  /** The bag of a gRPC frame: the status under `grpc_status`, or the error under `error`. */
  function GrpcBag(spec: WatchSpec, cfg: WatchConfig, third: string, value: string): Bag {
    map["endpoint" := spec.endpoint, "service" := spec.service, third := value,
        "ttl_stale_s" := Show(cfg.ttlStaleS), "ttl_dead_s" := Show(cfg.ttlDeadS)]
  }

  function StatusFrame(spec: WatchSpec, cfg: WatchConfig, st: ServingStatus, now: Stamp): Frame {
    var (level, msg) := st.Verdict();
    Frame(Some(now), "HEALTH", "grpc", spec.id, level, msg, GrpcBag(spec, cfg, "grpc_status", st.Name()))
  }

  function ErrorFrame(spec: WatchSpec, cfg: WatchConfig, msg: string, err: string, now: Stamp): Frame {
    Frame(Some(now), "HEALTH", "grpc", spec.id, Fail, msg, GrpcBag(spec, cfg, "error", err))
  }

  /** A spec free of tabs. (Line ends are a matter of framing, semicolons do no harm.) */
  ghost predicate TabFreeSpec(spec: WatchSpec) {
    '\t' !in spec.endpoint && '\t' !in spec.service && '\t' !in spec.id
  }

  lemma KeyBeforeTtl(k: string)
    requires k != "" && k[0] < 't'
    ensures !Le("ttl_dead_s", k)
  {
  }

  lemma GrpcBagCarriesTtl(spec: WatchSpec, cfg: WatchConfig, third: string, value: string)
    requires third == "grpc_status" || third == "error"
    ensures CarriesTtl(GrpcBag(spec, cfg, third, value), cfg.ttlStaleS, cfg.ttlDeadS)
  {
    hide Show, PlainKey, Le;
    var kv := GrpcBag(spec, cfg, third, value);
    TtlKeys();
    KeyBeforeTtl("endpoint");
    KeyBeforeTtl("service");
    KeyBeforeTtl(third);
    ShowIsPlain(cfg.ttlStaleS);
    ShowIsPlain(cfg.ttlDeadS);
    assert kv.Keys == {"endpoint", "service", third, "ttl_stale_s", "ttl_dead_s"};
  }

  lemma SortedLast(keys: set<string>, last: string)
    requires last in keys && forall k :: k in keys ==> Le(k, last)
    ensures SortedKeys(keys) != [] && SortedKeys(keys)[|SortedKeys(keys)| - 1] == last
  {
    hide Le, SortedKeys;
    var s := SortedKeys(keys);
    assert last in s;
    var n := |s| - 1;
    var j :| 0 <= j < |s| && s[j] == last;
    assert s[n] in s;
    if j < n {
      assert Le(s[j], s[n]);
      LeAntisymmetric(s[n], last);
    }
  }

  lemma GrpcBagTabFree(spec: WatchSpec, cfg: WatchConfig, third: string, value: string)
    requires third == "grpc_status" || third == "error"
    requires TabFreeSpec(spec) && '\t' !in value
    ensures forall k :: k in GrpcBag(spec, cfg, third, value) ==>
              '\t' !in k && '\t' !in GrpcBag(spec, cfg, third, value)[k]
  {
    hide Show;
    ShowIsPlain(cfg.ttlStaleS);
    ShowIsPlain(cfg.ttlDeadS);
    assert GrpcBag(spec, cfg, third, value).Keys == {"endpoint", "service", third, "ttl_stale_s", "ttl_dead_s"};
  }

  lemma GrpcTtl(w: World, spec: WatchSpec, cfg: WatchConfig, f: Frame, third: string, value: string, now: Stamp, lens: Lens)
    requires Sane(w) && Formattable(w.codec, now) && IsI64(cfg.ttlStaleS) && IsI64(cfg.ttlDeadS)
    requires TabFreeSpec(spec) && '\t' !in value && (third == "grpc_status" || third == "error")
    requires f.ts == Some(now) && f.id == spec.id && f.kv == GrpcBag(spec, cfg, third, value)
    requires '\t' !in f.kind && '\t' !in f.scope && '\t' !in f.msg
    ensures JudgedWith(
      w, FrameOut(f, now), lens, now, Effective(cfg.ttlStaleS, lens.staleS), Effective(cfg.ttlDeadS, lens.deadS))
  {
    hide Show, KvText, CarriesTtl, JudgedWith, Sane;
    GrpcBagCarriesTtl(spec, cfg, third, value);
    GrpcBagTabFree(spec, cfg, third, value);
    MirrorUsesTtl(w, f, now, cfg.ttlStaleS, cfg.ttlDeadS, lens);
  }

  lemma StatusWords(st: ServingStatus)
    ensures '\t' !in st.Name() && '\t' !in st.Verdict().1 && '\t' !in "HEALTH" && '\t' !in "grpc"
  {
  }

  /** Every gRPC status frame of a tab-free spec, semicolons in it or not. */
  lemma StatusTtlReachesMirror(w: World, spec: WatchSpec, cfg: WatchConfig, st: ServingStatus, now: Stamp, lens: Lens)
    requires Sane(w) && Formattable(w.codec, now) && IsI64(cfg.ttlStaleS) && IsI64(cfg.ttlDeadS)
    requires TabFreeSpec(spec)
    ensures JudgedWith(
      w, FrameOut(StatusFrame(spec, cfg, st, now), now), lens, now,
      Effective(cfg.ttlStaleS, lens.staleS), Effective(cfg.ttlDeadS, lens.deadS))
  {
    hide JudgedWith, GrpcBag, Sane, ServingStatus.Name, ServingStatus.Verdict;
    StatusWords(st);
    GrpcTtl(w, spec, cfg, StatusFrame(spec, cfg, st, now), "grpc_status", st.Name(), now, lens);
  }

  /**
   `emit_status_frame`: the frame it prints. Its level tells the four statuses apart, and for a tab-free
   spec every mirror judges it, as of `now`, with the configured TTLs where they are positive.
   */
  method EmitStatusFrame(spec: WatchSpec, cfg: WatchConfig, st: ServingStatus, now: Stamp) returns (f: Frame)
    ensures f == StatusFrame(spec, cfg, st, now)
    ensures f.ts == Some(now) && f.kind == "HEALTH" && f.scope == "grpc" && f.id == spec.id
    ensures f.kv.Keys == {"endpoint", "service", "grpc_status", "ttl_stale_s", "ttl_dead_s"}
    ensures f.level == Ok <==> st.Serving?
    ensures f.level == Fail <==> st.NotServing?
    ensures f.level == Warn <==> st.ServiceUnknown?
    ensures st.Serving? ==> f.msg == "SERVING" && f.kv["grpc_status"] == "Serving"
    ensures st.NotServing? ==> f.msg == "NOT_SERVING" && f.kv["grpc_status"] == "NotServing"
    ensures st.ServiceUnknown? ==> f.msg == "SERVICE_UNKNOWN" && f.kv["grpc_status"] == "ServiceUnknown"
    ensures st.Unknown? ==> f.level == Level.Unknown && f.msg == "UNKNOWN" && f.kv["grpc_status"] == "Unknown"
    ensures f.kv["endpoint"] == spec.endpoint && f.kv["service"] == spec.service
    ensures CarriesTtl(f.kv, cfg.ttlStaleS, cfg.ttlDeadS)
    ensures TabFreeSpec(spec) && IsI64(cfg.ttlStaleS) && IsI64(cfg.ttlDeadS) ==>
      forall w: World, lens: Lens :: Sane(w) && Formattable(w.codec, now) ==>
        JudgedWith(w, FrameOut(f, now), lens, now, Effective(cfg.ttlStaleS, lens.staleS), Effective(cfg.ttlDeadS, lens.deadS))
  {
    hide JudgedWith, CarriesTtl, TabFreeSpec, Sane, Show;
    var (level, msg) := st.Verdict();
    var kv: Bag := map[];
    kv := kv["endpoint" := spec.endpoint];
    kv := kv["service" := spec.service];
    kv := kv["grpc_status" := st.Name()];
    kv := kv["ttl_stale_s" := Show(cfg.ttlStaleS)];
    kv := kv["ttl_dead_s" := Show(cfg.ttlDeadS)];
    f := Frame(Some(now), "HEALTH", "grpc", spec.id, level, msg, kv);
    GrpcBagCarriesTtl(spec, cfg, "grpc_status", st.Name());
    if TabFreeSpec(spec) && IsI64(cfg.ttlStaleS) && IsI64(cfg.ttlDeadS) {
      forall w: World, lens: Lens | Sane(w) && Formattable(w.codec, now)
        ensures JudgedWith(
          w, FrameOut(f, now), lens, now, Effective(cfg.ttlStaleS, lens.staleS), Effective(cfg.ttlDeadS, lens.deadS))
      {
        StatusTtlReachesMirror(w, spec, cfg, st, now, lens);
      }
    }
  }

  /** `emit_error_frame`: a failure with the watcher's message and the error in the bag. */
  method EmitErrorFrame(spec: WatchSpec, cfg: WatchConfig, msg: string, err: string, now: Stamp) returns (f: Frame)
    ensures f == ErrorFrame(spec, cfg, msg, err, now)
    ensures f.ts == Some(now) && f.kind == "HEALTH" && f.scope == "grpc" && f.id == spec.id && f.level.Fail? && f.msg == msg
    ensures f.kv.Keys == {"endpoint", "service", "error", "ttl_stale_s", "ttl_dead_s"}
    ensures f.kv["endpoint"] == spec.endpoint && f.kv["service"] == spec.service && f.kv["error"] == err
    ensures CarriesTtl(f.kv, cfg.ttlStaleS, cfg.ttlDeadS)
  {
    hide CarriesTtl, Show;
    var kv: Bag := map[];
    kv := kv["endpoint" := spec.endpoint];
    kv := kv["service" := spec.service];
    kv := kv["error" := err];
    kv := kv["ttl_stale_s" := Show(cfg.ttlStaleS)];
    kv := kv["ttl_dead_s" := Show(cfg.ttlDeadS)];
    f := Frame(Some(now), "HEALTH", "grpc", spec.id, Fail, msg, kv);
    GrpcBagCarriesTtl(spec, cfg, "error", err);
  }

  /** What is left of an error frame's bag when a tab ends the error text. */
  function ErrorBag(spec: WatchSpec, front: string): Bag {
    KvOf(Join([Part("endpoint", spec.endpoint), "error=" + front], ';'))
  }

  /** The TTL that a mirror takes from an error frame. */
  function ErrorTtl(spec: WatchSpec, err: string, key: string, configured: int, fallback: int): int {
    if '\t' in err then TtlOf(ErrorBag(spec, UpToTab(err)), key).UnwrapOr(fallback) else Effective(configured, fallback)
  }

  /**
   Every gRPC error frame, exactly: without a tab in the error text the configured TTLs arrive; with one,
   all that is read of the bag is the endpoint and the error text up to the tab, and the mirror uses its
   own TTLs unless these bring others behind a semicolon.
   */
  lemma ErrorTtlReachesMirror(
    w: World, spec: WatchSpec, cfg: WatchConfig, msg: string, err: string, now: Stamp, lens: Lens)
    requires Sane(w) && Formattable(w.codec, now) && IsI64(cfg.ttlStaleS) && IsI64(cfg.ttlDeadS)
    requires TabFreeSpec(spec) && '\t' !in msg
    ensures JudgedWith(
      w, FrameOut(ErrorFrame(spec, cfg, msg, err, now), now), lens, now,
      ErrorTtl(spec, err, "ttl_stale_s", cfg.ttlStaleS, lens.staleS), ErrorTtl(spec, err, "ttl_dead_s", cfg.ttlDeadS, lens.deadS))
  {
    if '\t' in err {
      hide Parse, ToTsvLine, KvText, KvOf, UpToTab, LivenessAt, TtlOf, GrpcBag, ErrorBag;
      CutReparse(w.codec, ErrorFrame(spec, cfg, msg, err, now), now);
      ErrorBagIs(spec, cfg, err);
    } else {
      hide JudgedWith, GrpcBag, Sane;
      GrpcTtl(w, spec, cfg, ErrorFrame(spec, cfg, msg, err, now), "error", err, now, lens);
    }
  }

  lemma ErrorBagIs(spec: WatchSpec, cfg: WatchConfig, err: string)
    requires TabFreeSpec(spec) && '\t' in err
    ensures KvOf(UpToTab(KvText(GrpcBag(spec, cfg, "error", err)))) == ErrorBag(spec, UpToTab(err))
  {
    hide KvText, KvOf, UpToTab, Le, GrpcBag, Join, Part;
    var kv, before := GrpcBag(spec, cfg, "error", err), ["endpoint"];
    GrpcBagEntries(spec, cfg, err);
    ErrorKeys();
    BagUpToTab(kv, "error", before);
    assert Parts(before, kv) == [Part("endpoint", spec.endpoint)];
    assert [Part("endpoint", spec.endpoint)] + ["error=" + UpToTab(err)] == [Part("endpoint", spec.endpoint), "error=" + UpToTab(err)];
    assert "error" + "=" == "error=";
  }

  lemma ErrorKeys()
    ensures forall k :: k in {"endpoint", "service", "error", "ttl_stale_s", "ttl_dead_s"} ==>
              (k != "error" && Le(k, "error") <==> k == "endpoint")
    ensures PlainKey("error") && PlainKey("endpoint") && '\t' !in "error" && '\t' !in "endpoint"
  {
    hide Le;
    LeAt("error", "service", 0);
    LeAt("error", "ttl_stale_s", 0);
    LeAt("error", "ttl_dead_s", 0);
    assert "endpoint"[..1] == "error"[..1];
    LeAt("endpoint", "error", 1);
  }

  /** So a tab in an error text without semicolons makes the mirror fall back to its own TTLs. */
  lemma ErrorTabLosesTtl(spec: WatchSpec, err: string, key: string, configured: int, fallback: int)
    requires '\t' in err && ';' !in spec.endpoint && ';' !in UpToTab(err)
    requires key != "endpoint" && key != "error"
    ensures ErrorTtl(spec, err, key, configured, fallback) == fallback
  {
    hide KvOf, UpToTab, Join, PlainKey, EntryOf;
    var front := UpToTab(err);
    ErrorKeys();
    PartGives("endpoint", spec.endpoint, key);
    PartPlain("endpoint", spec.endpoint);
    PairGives("error", front, key);
    assert "error" + "=" == "error=" && ';' !in "error=";
    NobodyGives([Part("endpoint", spec.endpoint), "error=" + front], key);
  }

  lemma GrpcBagEntries(spec: WatchSpec, cfg: WatchConfig, err: string)
    ensures
      var kv := GrpcBag(spec, cfg, "error", err);
      && kv.Keys == {"endpoint", "service", "error", "ttl_stale_s", "ttl_dead_s"}
      && kv["error"] == err && kv["endpoint"] == spec.endpoint
  {
    hide Show;
  }
}

/**
 `load_packs` and `parse_pack_manifest` (crates/hawk/src/packs.rs:113-162, 211-274) on one snapshot of the file system.
 */
module PackLoader {
  import opened Basics
  import opened Text
  import opened Ordering
  import opened Packs
  import Decimal

  /** A manifest after TOML decoding. */
  datatype ManifestArg = ManifestArg(name: string, ty: string, default: string, help: string)
  datatype ManifestThread = ManifestThread(
    id: string, title: string, kind: string, file: string, description: string, args: seq<ManifestArg>)
  datatype Manifest = Manifest(
    id: string, name: string, version: string, author: string, description: string, threads: seq<ManifestThread>)

  datatype Thread = Thread(id: string, title: string, kind: string, file: string, description: string, args: seq<ArgSpec>)
  datatype Pack = Pack(
    id: string, name: string, version: string, author: string, description: string, dir: string, threads: seq<Thread>)

  /** A directory below the packs directory; `Undecodable` stands for a read or TOML failure. */
  datatype PackDir = NoManifest | Undecodable | Decoded(manifest: Manifest)

  /** The packs directory; `brokenEntry` tells that reading some directory entry failed. */
  datatype Listing = Missing | Unlistable | Listed(dirs: map<string, PackDir>, brokenEntry: bool)

  datatype Disk = Disk(listing: Listing, present: string -> bool)

  function ScriptPath(dir: string, file: string): string {
    dir + "/" + file
  }

  /** `ensure_safe_rel_path`. */
  predicate SafeRelPath(file: string) {
    !(file != "" && file[0] == '/') && ".." !in Split(file, '/')
  }

  function ParseArgType(s: string): Option<ArgType> {
    var w := Lower(Trim(s));
    if w == "string" then Some(StringArg)
    else if w == "int" then Some(IntArg)
    else if w == "bool" then Some(BoolArg)
    else None
  }

  function ParseArg(a: ManifestArg): Option<ArgSpec> {
    match ParseArgType(a.ty)
    case None => None
    case Some(ty) =>
      var spec := ArgSpec(a.name, ty, a.default, a.help);
      if DefaultOk(spec) then Some(spec) else None
  }

  function ParseArgs(args: seq<ManifestArg>): Option<seq<ArgSpec>> {
    if args == [] then Some([])
    else
      match (ParseArgs(args[..|args| - 1]), ParseArg(args[|args| - 1]))
      case (Some(before), Some(spec)) => Some(before + [spec])
      case _ => None
  }

  function ParseThread(disk: Disk, dir: string, t: ManifestThread): Option<Thread> {
    if !SafeRelPath(t.file) || Trim(t.id) == "" || Trim(t.kind) == "" || !disk.present(ScriptPath(dir, t.file)) then None
    else
      match ParseArgs(t.args)
      case None => None
      case Some(args) => Some(Thread(t.id, t.title, t.kind, t.file, t.description, args))
  }

  function ParseThreads(disk: Disk, dir: string, ts: seq<ManifestThread>): Option<seq<Thread>> {
    if ts == [] then Some([])
    else
      match (ParseThreads(disk, dir, ts[..|ts| - 1]), ParseThread(disk, dir, ts[|ts| - 1]))
      case (Some(before), Some(th)) => Some(before + [th])
      case _ => None
  }

  lemma {:induction false} ParseThreadsFails(disk: Disk, dir: string, ts: seq<ManifestThread>, i: nat)
    requires i < |ts| && ParseThread(disk, dir, ts[i]).None?
    ensures ParseThreads(disk, dir, ts).None?
  {
    hide ParseThread;
    if i < |ts| - 1 {
      ParseThreadsFails(disk, dir, ts[..|ts| - 1], i);
    }
  }

  lemma {:induction false} ParseArgsFails(args: seq<ManifestArg>, i: nat)
    requires i < |args| && ParseArg(args[i]).None?
    ensures ParseArgs(args).None?
  {
    hide ParseArg;
    if i < |args| - 1 {
      ParseArgsFails(args[..|args| - 1], i);
    }
  }

  function PackOf(man: Manifest, dir: string, threads: seq<Thread>): Pack {
    Pack(man.id, man.name, man.version, man.author, man.description, dir, threads)
  }

  /** `parse_pack_manifest` behind TOML decoding; `None` stands for an error. */
  method ParsePackManifest(disk: Disk, dir: string, man: Manifest) returns (pack: Option<Pack>)
    ensures pack == match ParseThreads(disk, dir, man.threads)
                    case None => None
                    case Some(ts) => Some(PackOf(man, dir, ts))
  {
    hide SafeRelPath, DefaultOk, ParseArgType;
    var threads: seq<Thread> := [];
    for i := 0 to |man.threads|
      invariant ParseThreads(disk, dir, man.threads[..i]) == Some(threads)
    {
      var t := man.threads[i];
      assert man.threads[..i + 1][..i] == man.threads[..i];
      if ParseThread(disk, dir, t).None? {
        ParseThreadsFails(disk, dir, man.threads, i);
      }
      if !SafeRelPath(t.file) {
        return None;
      }
      if Trim(t.id) == "" {
        return None;
      }
      if Trim(t.kind) == "" {
        return None;
      }
      if !disk.present(ScriptPath(dir, t.file)) {
        return None;
      }
      var args := ParseManifestArgs(t.args);
      if args.None? {
        return None;
      }
      threads := threads + [Thread(t.id, t.title, t.kind, t.file, t.description, args.value)];
    }
    assert man.threads[..|man.threads|] == man.threads;
    pack := Some(Pack(man.id, man.name, man.version, man.author, man.description, dir, threads));
  }

  /** The inner loop over a thread's arguments. */
  method ParseManifestArgs(margs: seq<ManifestArg>) returns (r: Option<seq<ArgSpec>>)
    ensures r == ParseArgs(margs)
  {
    hide DefaultOk, ParseArgType;
    var args: seq<ArgSpec> := [];
    for i := 0 to |margs|
      invariant ParseArgs(margs[..i]) == Some(args)
    {
      var a := margs[i];
      assert margs[..i + 1][..i] == margs[..i];
      if ParseArg(a).None? {
        ParseArgsFails(margs, i);
      }
      var ty := ParseArgType(a.ty);
      if ty.None? {
        return None;
      }
      var spec := ArgSpec(a.name, ty.value, a.default, a.help);
      if !DefaultOk(spec) {
        return None;
      }
      args := args + [spec];
    }
    assert margs[..|margs|] == margs;
    r := Some(args);
  }

  /** Whatever a manifest lets through has acceptable defaults. */
  lemma {:induction false} ParsedDefaultsOk(args: seq<ManifestArg>)
    requires ParseArgs(args).Some?
    ensures forall i :: 0 <= i < |ParseArgs(args).value| ==> DefaultOk(ParseArgs(args).value[i])
  {
    hide DefaultOk, ParseArgType;
    if args != [] {
      ParsedDefaultsOk(args[..|args| - 1]);
    }
  }

  // ----- load_packs

  datatype Found = Skipped | Broken | Loaded(pack: Pack)

  function FoundAt(disk: Disk, dir: string, d: PackDir): Found {
    match d
    case NoManifest => Skipped
    case Undecodable => Broken
    case Decoded(man) => FoundIn(disk, dir, man)
  }

  function FoundIn(disk: Disk, dir: string, man: Manifest): Found {
    match ParseThreads(disk, dir, man.threads)
    case None => Broken
    case Some(ts) => Loaded(PackOf(man, dir, ts))
  }

  /** What either walk finds, in directory order. */
  function Findings(disk: Disk, dirs: map<string, PackDir>): seq<Found> {
    var names := SortedKeys(dirs.Keys);
    assert forall i :: 0 <= i < |names| ==> names[i] in names;
    seq(|names|, i requires 0 <= i < |names| => FoundAt(disk, names[i], dirs[names[i]]))
  }

  datatype Resolved = Resolved(packId: string, thread: Thread, script: string)
  datatype Index = Index(packs: seq<Pack>, threads: map<string, Resolved>)

  function ResolvedOf(pack: Pack, th: Thread): Resolved {
    Resolved(pack.id, th, ScriptPath(pack.dir, th.file))
  }

  function AddThreads(index: map<string, Resolved>, pack: Pack, ths: seq<Thread>): Option<map<string, Resolved>> {
    if ths == [] then Some(index)
    else
      var last := ths[|ths| - 1];
      match AddThreads(index, pack, ths[..|ths| - 1])
      case None => None
      case Some(m) => if last.id in m then None else Some(m[last.id := ResolvedOf(pack, last)])
  }

  function LoadAll(found: seq<Found>): Option<Index> {
    if found == [] then Some(Index([], map[]))
    else
      match (LoadAll(found[..|found| - 1]), found[|found| - 1])
      case (None, _) => None
      case (Some(idx), Skipped) => Some(idx)
      case (Some(idx), Broken) => None
      case (Some(idx), Loaded(pack)) =>
        match AddThreads(idx.threads, pack, pack.threads)
        case None => None
        case Some(m) => Some(Index(idx.packs + [pack], m))
  }

  function Load(disk: Disk): Option<Index> {
    match disk.listing
    case Missing => Some(Index([], map[]))
    case Unlistable => None
    case Listed(dirs, brokenEntry) => if brokenEntry then None else LoadAll(Findings(disk, dirs))
  }

  lemma {:induction false} AddThreadsFails(index: map<string, Resolved>, pack: Pack, ths: seq<Thread>, n: nat)
    requires n <= |ths| && AddThreads(index, pack, ths[..n]).None?
    ensures AddThreads(index, pack, ths).None?
  {
    if n == |ths| {
      assert ths[..n] == ths;
    } else {
      assert ths[..|ths| - 1][..n] == ths[..n];
      AddThreadsFails(index, pack, ths[..|ths| - 1], n);
    }
  }

  lemma {:induction false} LoadAllFails(found: seq<Found>, n: nat)
    requires n <= |found| && LoadAll(found[..n]).None?
    ensures LoadAll(found).None?
  {
    if n == |found| {
      assert found[..n] == found;
    } else {
      assert found[..|found| - 1][..n] == found[..n];
      LoadAllFails(found[..|found| - 1], n);
    }
  }

  /** The inner loop of `load_packs`. */
  method IndexThreads(index: map<string, Resolved>, pack: Pack) returns (r: Option<map<string, Resolved>>)
    ensures r == AddThreads(index, pack, pack.threads)
  {
    var threads := index;
    for i := 0 to |pack.threads|
      invariant AddThreads(index, pack, pack.threads[..i]) == Some(threads)
    {
      var th := pack.threads[i];
      assert pack.threads[..i + 1][..i] == pack.threads[..i];
      if th.id in threads {
        AddThreadsFails(index, pack, pack.threads, i + 1);
        return None;
      }
      threads := threads[th.id := ResolvedOf(pack, th)];
    }
    assert pack.threads[..|pack.threads|] == pack.threads;
    r := Some(threads);
  }

  lemma FindingsAt(disk: Disk)
    ensures disk.listing.Listed? ==>
      var names, found := SortedKeys(disk.listing.dirs.Keys), Findings(disk, disk.listing.dirs);
      && |found| == |names|
      && forall i :: 0 <= i < |names| ==>
           names[i] in disk.listing.dirs && found[i] == FoundAt(disk, names[i], disk.listing.dirs[names[i]])
  {
    hide SortedKeys, FoundAt;
    if disk.listing.Listed? {
      var names := SortedKeys(disk.listing.dirs.Keys);
      assert forall i :: 0 <= i < |names| ==> names[i] in names;
    }
  }

  lemma FoundCases(disk: Disk, dir: string, d: PackDir)
    ensures d.NoManifest? ==> FoundAt(disk, dir, d) == Skipped
    ensures d.Undecodable? ==> FoundAt(disk, dir, d) == Broken
    ensures d.Decoded? ==> FoundAt(disk, dir, d) == FoundIn(disk, dir, d.manifest)
  {
    hide ParseThreads;
  }

  lemma LoadStep(found: seq<Found>, i: nat)
    requires i < |found| && LoadAll(found[..i]).Some?
    ensures LoadAll(found[..i + 1]) ==
            match found[i]
            case Skipped => LoadAll(found[..i])
            case Broken => None
            case Loaded(pack) =>
              match AddThreads(LoadAll(found[..i]).value.threads, pack, pack.threads)
              case None => None
              case Some(m) => Some(Index(LoadAll(found[..i]).value.packs + [pack], m))
    ensures LoadAll(found[..i + 1]).None? ==> LoadAll(found).None?
  {
    hide AddThreads;
    assert found[..i + 1][..i] == found[..i];
    if LoadAll(found[..i + 1]).None? {
      LoadAllFails(found, i + 1);
    }
  }

  /** `load_packs`; `None` stands for an error. */
  method LoadPacks(disk: Disk) returns (r: Option<Index>)
    ensures r == Load(disk)
  {
    hide ParseThreads, AddThreads, SortedKeys, FoundAt, Findings, LoadAll;
    var packs: seq<Pack> := [];
    var threads: map<string, Resolved> := map[];
    if disk.listing.Missing? {
      return Some(Index(packs, threads));
    }
    if disk.listing.Unlistable? || disk.listing.brokenEntry {
      return None;
    }
    FindingsAt(disk);
    var dirs := SortedKeys(disk.listing.dirs.Keys);
    ghost var found := Findings(disk, disk.listing.dirs);
    LoadNone();
    for i := 0 to |dirs|
      invariant LoadAll(found[..i]) == Some(Index(packs, threads))
    {
      var d := disk.listing.dirs[dirs[i]];
      FoundCases(disk, dirs[i], d);
      LoadStep(found, i);
      if d.NoManifest? {
        continue;
      }
      if d.Undecodable? {
        return None;
      }
      var pack := ParsePackManifest(disk, dirs[i], d.manifest);
      if pack.None? {
        return None;
      }
      var more := IndexThreads(threads, pack.value);
      if more.None? {
        return None;
      }
      threads := more.value;
      packs := packs + [pack.value];
    }
    assert found[..|dirs|] == found;
    r := Some(Index(packs, threads));
  }

  lemma LoadNone()
    ensures LoadAll([]) == Some(Index([], map[]))
  {
  }

  // ----- When loading succeeds

  function Ids(ths: seq<Thread>): seq<string> {
    seq(|ths|, i requires 0 <= i < |ths| => ths[i].id)
  }

  function IdSet(ids: seq<string>): set<string> {
    set id | id in ids
  }

  lemma IdSetAppend(ids: seq<string>, id: string)
    ensures IdSet(ids + [id]) == IdSet(ids) + {id}
  {
  }

  lemma IdSetConcat(a: seq<string>, b: seq<string>)
    ensures IdSet(a + b) == IdSet(a) + IdSet(b)
  {
  }

  /** The thread ids of every pack that parses, in order, repeats included. */
  function AllIds(found: seq<Found>): seq<string> {
    if found == [] then []
    else
      var last := found[|found| - 1];
      AllIds(found[..|found| - 1]) + if last.Loaded? then Ids(last.pack.threads) else []
  }

  lemma DistinctConcat(a: seq<string>, b: seq<string>)
    ensures Distinct(a + b) <==> Distinct(a) && Distinct(b) && forall i :: 0 <= i < |b| ==> b[i] !in a
  {
    var s := a + b;
    if Distinct(s) {
      forall i, j | 0 <= i < j < |a| ensures a[i] != a[j] {
        assert a[i] == s[i] && a[j] == s[j];
      }
      forall i, j | 0 <= i < j < |b| ensures b[i] != b[j] {
        assert b[i] == s[|a| + i] && b[j] == s[|a| + j];
      }
      forall i, j | 0 <= i < |b| && 0 <= j < |a| ensures a[j] != b[i] {
        assert a[j] == s[j] && b[i] == s[|a| + i];
      }
    }
  }

  predicate NoneIn(ids: seq<string>, keys: set<string>) {
    forall i :: 0 <= i < |ids| ==> ids[i] !in keys
  }

  lemma {:induction false} AddThreadsShape(index: map<string, Resolved>, pack: Pack, ths: seq<Thread>)
    ensures AddThreads(index, pack, ths).Some? <==> Distinct(Ids(ths)) && NoneIn(Ids(ths), index.Keys)
    ensures AddThreads(index, pack, ths).Some? ==>
              AddThreads(index, pack, ths).value.Keys == index.Keys + IdSet(Ids(ths))
  {
    hide Distinct;
    if ths == [] {
      assert Distinct<string>([]) by { NoneDistinct(); }
    } else {
      var n := |ths| - 1;
      var before, id := Ids(ths[..n]), ths[n].id;
      AddThreadsShape(index, pack, ths[..n]);
      assert Ids(ths) == before + [id];
      DistinctConcat(before, [id]);
      OneDistinct(id);
      assert NoneIn(Ids(ths), index.Keys) <==> NoneIn(before, index.Keys) && id !in index.Keys by {
        assert Ids(ths)[n] == id;
        assert forall i :: 0 <= i < n ==> Ids(ths)[i] == before[i];
      }
    }
  }

  lemma NoneDistinct()
    ensures Distinct<string>([])
  {
  }

  lemma OneDistinct(id: string)
    ensures Distinct([id])
  {
  }

  lemma AddPackShape(index: map<string, Resolved>, ids: seq<string>, pack: Pack)
    requires Distinct(ids) && index.Keys == IdSet(ids)
    ensures AddThreads(index, pack, pack.threads).Some? <==> Distinct(ids + Ids(pack.threads))
    ensures AddThreads(index, pack, pack.threads).Some? ==>
              AddThreads(index, pack, pack.threads).value.Keys == IdSet(ids + Ids(pack.threads))
  {
    hide Distinct, AddThreads, Ids;
    AddThreadsShape(index, pack, pack.threads);
    DistinctConcat(ids, Ids(pack.threads));
    IdSetConcat(ids, Ids(pack.threads));
  }

  predicate NoneBroken(found: seq<Found>) {
    forall i :: 0 <= i < |found| ==> !found[i].Broken?
  }

  lemma NoneBrokenStep(found: seq<Found>)
    requires found != []
    ensures NoneBroken(found) <==> NoneBroken(found[..|found| - 1]) && !found[|found| - 1].Broken?
  {
    var n := |found| - 1;
    assert forall i :: 0 <= i < n ==> found[i] == found[..n][i];
  }

  /** Loading the walk succeeds exactly if nothing is broken and no thread id repeats. */
  lemma {:induction false} LoadAllShape(found: seq<Found>)
    ensures LoadAll(found).Some? <==> Distinct(AllIds(found)) && NoneBroken(found)
    ensures LoadAll(found).Some? ==> LoadAll(found).value.threads.Keys == IdSet(AllIds(found))
  {
    hide Distinct, AddThreads, Ids, NoneBroken;
    if found == [] {
      NoneDistinct();
      assert NoneBroken(found) by { NothingBroken(found); }
    } else {
      var n := |found| - 1;
      LoadAllShape(found[..n]);
      NoneBrokenStep(found);
      var before := AllIds(found[..n]);
      if found[n].Loaded? {
        DistinctConcat(before, Ids(found[n].pack.threads));
        if LoadAll(found[..n]).Some? {
          AddPackShape(LoadAll(found[..n]).value.threads, before, found[n].pack);
        }
      } else {
        assert before + [] == before;
      }
    }
  }

  lemma NothingBroken(found: seq<Found>)
    requires found == []
    ensures NoneBroken(found)
  {
  }

  // ----- When a manifest is accepted

  predicate ArgOk(a: ManifestArg) {
    && Lower(Trim(a.ty)) in {"string", "int", "bool"}
    && (Lower(Trim(a.ty)) == "int" ==> Trim(a.default) == "" || Decimal.ParseI64(a.default).Some?)
    && (Lower(Trim(a.ty)) == "bool" ==> Lower(a.default) in {"", "true", "false", "1", "0"})
  }

  predicate ThreadOk(disk: Disk, dir: string, t: ManifestThread) {
    && (t.file == "" || t.file[0] != '/') && ".." !in Split(t.file, '/')
    && !Blank(t.id) && !Blank(t.kind)
    && disk.present(ScriptPath(dir, t.file))
    && forall i :: 0 <= i < |t.args| ==> ArgOk(t.args[i])
  }

  /** The argument as the manifest has it. */
  predicate ArgFrom(a: ManifestArg, spec: ArgSpec) {
    && spec.name == a.name && spec.default == a.default && spec.help == a.help
    && (spec.ty.StringArg? <==> Lower(Trim(a.ty)) == "string")
    && (spec.ty.IntArg? <==> Lower(Trim(a.ty)) == "int")
    && (spec.ty.BoolArg? <==> Lower(Trim(a.ty)) == "bool")
  }

  /** The thread as the manifest has it. */
  predicate ThreadFrom(t: ManifestThread, th: Thread) {
    && th.id == t.id && th.title == t.title && th.kind == t.kind && th.file == t.file && th.description == t.description
    && |th.args| == |t.args| && forall i :: 0 <= i < |t.args| ==> ArgFrom(t.args[i], th.args[i])
  }

  lemma ParseArgIff(a: ManifestArg)
    ensures ParseArg(a).Some? <==> ArgOk(a)
    ensures ParseArg(a).Some? ==> ArgFrom(a, ParseArg(a).value)
  {
    hide Trim, Decimal.ParseI64;
  }

  lemma {:induction false} ParseArgsIff(args: seq<ManifestArg>)
    ensures ParseArgs(args).Some? <==> forall i :: 0 <= i < |args| ==> ArgOk(args[i])
    ensures ParseArgs(args).Some? ==>
      var specs := ParseArgs(args).value;
      |specs| == |args| && forall i :: 0 <= i < |args| ==> ArgFrom(args[i], specs[i])
  {
    hide ArgOk, ParseArg, ArgFrom;
    if args != [] {
      var n := |args| - 1;
      ParseArgsIff(args[..n]);
      ParseArgIff(args[n]);
      assert forall i :: 0 <= i < n ==> args[i] == args[..n][i];
    }
  }

  lemma ParseThreadIff(disk: Disk, dir: string, t: ManifestThread)
    ensures ParseThread(disk, dir, t).Some? <==> ThreadOk(disk, dir, t)
    ensures ParseThread(disk, dir, t).Some? ==> ThreadFrom(t, ParseThread(disk, dir, t).value)
  {
    hide ArgOk, ParseArgs, Split, ArgFrom;
    ParseArgsIff(t.args);
    TrimBlank(t.id);
    TrimBlank(t.kind);
  }

  /**
   A manifest is accepted exactly if each thread has a safe relative path to a script that exists,
   an id and a kind that are not blank, and arguments of a known type with a default that fits or is
   left out; the threads are then, in order, as the manifest has them.
   */
  lemma {:induction false} ManifestAccepted(disk: Disk, dir: string, ts: seq<ManifestThread>)
    ensures ParseThreads(disk, dir, ts).Some? <==> forall i :: 0 <= i < |ts| ==> ThreadOk(disk, dir, ts[i])
    ensures ParseThreads(disk, dir, ts).Some? ==>
      var out := ParseThreads(disk, dir, ts).value;
      |out| == |ts| && forall i :: 0 <= i < |ts| ==> ThreadFrom(ts[i], out[i])
  {
    hide ThreadOk, ParseThread, ThreadFrom;
    if ts != [] {
      var n := |ts| - 1;
      ManifestAccepted(disk, dir, ts[..n]);
      ParseThreadIff(disk, dir, ts[n]);
      assert forall i :: 0 <= i < n ==> ts[i] == ts[..n][i];
    }
  }

  // ----- What a thread id resolves to

  /** The packs that parse, in directory order. */
  function PacksIn(found: seq<Found>): seq<Pack> {
    if found == [] then []
    else
      var last := found[|found| - 1];
      PacksIn(found[..|found| - 1]) + if last.Loaded? then [last.pack] else []
  }

  /** The id of a pack's thread resolves to that thread and its script. */
  predicate Resolves(threads: map<string, Resolved>, pack: Pack, th: Thread) {
    th.id in threads && threads[th.id] == Resolved(pack.id, th, pack.dir + "/" + th.file)
  }

  lemma {:induction false} AddedThreads(index: map<string, Resolved>, pack: Pack, ths: seq<Thread>)
    requires AddThreads(index, pack, ths).Some?
    ensures
      var m := AddThreads(index, pack, ths).value;
      && (forall k :: k in index ==> k in m && m[k] == index[k])
      && forall j :: 0 <= j < |ths| ==> Resolves(m, pack, ths[j])
  {
    if ths != [] {
      var n := |ths| - 1;
      AddedThreads(index, pack, ths[..n]);
      assert forall j :: 0 <= j < n ==> ths[j] == ths[..n][j];
    }
  }

  /** A loaded index has the packs in order, and every thread of each under its own id. */
  lemma {:induction false} LoadedContent(found: seq<Found>)
    requires LoadAll(found).Some?
    ensures LoadAll(found).value.packs == PacksIn(found)
    ensures forall i, j :: 0 <= i < |found| && found[i].Loaded? && 0 <= j < |found[i].pack.threads| ==>
              Resolves(LoadAll(found).value.threads, found[i].pack, found[i].pack.threads[j])
  {
    hide AddThreads;
    if found != [] {
      var n := |found| - 1;
      LoadedContent(found[..n]);
      assert forall i :: 0 <= i < n ==> found[i] == found[..n][i];
      if found[n].Loaded? {
        AddedThreads(LoadAll(found[..n]).value.threads, found[n].pack, found[n].pack.threads);
      }
    }
  }

  /** The entry is that of the i-th thread in the manifest of directory `dir`. */
  ghost predicate EntryFrom(dirs: map<string, PackDir>, id: string, r: Resolved, dir: string, i: nat) {
    && dir in dirs && dirs[dir].Decoded? && i < |dirs[dir].manifest.threads|
    && var man := dirs[dir].manifest;
    var t := man.threads[i];
    && t.id == id && r.packId == man.id && r.script == dir + "/" + t.file && ThreadFrom(t, r.thread)
  }

  /**
   What a thread id resolves to, exactly: when loading succeeds, every thread of every manifest is in the
   index under its own id, with its pack's id, its script and all that the manifest says of it; and
   every id in the index is that of such a thread.
   */
  lemma ResolvesExactly(disk: Disk)
    requires disk.listing.Listed? && Load(disk).Some?
    ensures
      var dirs, threads := disk.listing.dirs, Load(disk).value.threads;
      && (forall dir, i: nat :: dir in dirs && dirs[dir].Decoded? && i < |dirs[dir].manifest.threads| ==>
            var id := dirs[dir].manifest.threads[i].id;
            id in threads && EntryFrom(dirs, id, threads[id], dir, i))
      && (forall id :: id in threads ==> exists dir, i: nat :: EntryFrom(dirs, id, threads[id], dir, i))
  {
    hide Load, ThreadFrom, EntryFrom;
    var dirs, threads := disk.listing.dirs, Load(disk).value.threads;
    forall dir, i: nat | dir in dirs && dirs[dir].Decoded? && i < |dirs[dir].manifest.threads|
      ensures
        var id := dirs[dir].manifest.threads[i].id;
        id in threads && EntryFrom(dirs, id, threads[id], dir, i)
    {
      ThreadIsIndexed(disk, dir, i);
    }
    forall id | id in threads ensures exists dir, i: nat :: EntryFrom(dirs, id, threads[id], dir, i) {
      var dir, i := IndexedFrom(disk, id);
    }
  }

  lemma ThreadIsIndexed(disk: Disk, dir: string, i: nat)
    requires disk.listing.Listed? && Load(disk).Some?
    requires
      var dirs := disk.listing.dirs;
      dir in dirs && dirs[dir].Decoded? && i < |dirs[dir].manifest.threads|
    ensures
      var dirs, threads := disk.listing.dirs, Load(disk).value.threads;
      var id := dirs[dir].manifest.threads[i].id;
      id in threads && EntryFrom(dirs, id, threads[id], dir, i)
  {
    hide SortedKeys, LoadAll, Findings, FoundAt, ArgFrom, AllIds, Distinct;
    var dirs, found := disk.listing.dirs, Findings(disk, disk.listing.dirs);
    var names := SortedKeys(dirs.Keys);
    FindingsAt(disk);
    LoadedContent(found);
    LoadAllShape(found);
    assert dir in names;
    var k :| 0 <= k < |names| && names[k] == dir;
    FoundContent(disk, dir, dirs[dir]);
    assert found[k] == FoundAt(disk, dir, dirs[dir]) && !found[k].Broken?;
    var th := found[k].pack.threads[i];
    assert ThreadFrom(dirs[dir].manifest.threads[i], th);
    assert Resolves(Load(disk).value.threads, found[k].pack, th);
  }

  lemma IndexedFrom(disk: Disk, id: string) returns (dir: string, i: nat)
    requires disk.listing.Listed? && Load(disk).Some? && id in Load(disk).value.threads
    ensures EntryFrom(disk.listing.dirs, id, Load(disk).value.threads[id], dir, i)
  {
    hide SortedKeys, LoadAll, Findings, FoundAt, ArgFrom, AllIds, Distinct;
    var dirs, found := disk.listing.dirs, Findings(disk, disk.listing.dirs);
    var names := SortedKeys(dirs.Keys);
    FindingsAt(disk);
    LoadAllShape(found);
    var k;
    k, i := IdOrigin(found, id);
    dir := names[k];
    FoundContent(disk, dir, dirs[dir]);
    assert ThreadFrom(dirs[dir].manifest.threads[i], found[k].pack.threads[i]);
    ThreadIsIndexed(disk, dir, i);
  }

  /** A pack that parsed has what its manifest says, thread by thread. */
  lemma FoundContent(disk: Disk, dir: string, d: PackDir)
    ensures
      var f := FoundAt(disk, dir, d);
      && (f.Loaded? ==> d.Decoded?)
      && (d.Decoded? ==> f.Loaded? || f.Broken?)
      && (f.Loaded? ==>
            var man, pack := d.manifest, f.pack;
            && pack.id == man.id && pack.name == man.name && pack.version == man.version && pack.author == man.author
            && pack.description == man.description && pack.dir == dir && |pack.threads| == |man.threads|
            && forall i :: 0 <= i < |man.threads| ==> ThreadFrom(man.threads[i], pack.threads[i]))
  {
    hide ParseThreads, ThreadFrom, ThreadOk;
    if d.Decoded? {
      ManifestAccepted(disk, dir, d.manifest.threads);
    }
  }

  lemma {:induction false} IdOrigin(found: seq<Found>, id: string) returns (k: nat, i: nat)
    requires id in AllIds(found)
    ensures k < |found| && found[k].Loaded? && i < |found[k].pack.threads| && found[k].pack.threads[i].id == id
  {
    var n := |found| - 1;
    if id in AllIds(found[..n]) {
      k, i := IdOrigin(found[..n], id);
    } else {
      k := n;
      var ids := Ids(found[n].pack.threads);
      assert id in ids;
      i :| 0 <= i < |ids| && ids[i] == id;
    }
  }
}

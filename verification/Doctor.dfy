/**
 `run_pack_doctor` (crates/hawk/src/doctor.rs:66-175), which walks the packs directory on its own.
 What the style, schema, security and smoke checks have to say of a script is an input.
 */
module Doctor {
  import opened Basics
  import opened Ordering
  import opened PackLoader

  datatype Finding =
    | CannotList
    | ParseFailed(dir: string)
    | Collision(id: string, earlier: string, dir: string)
    | MissingScript(id: string)
    | Complaint(id: string, text: string)

  datatype Remark = NoPacksDir | ZeroThreads(dir: string) | Note(id: string, text: string)

  /** What the checks of one script find. */
  datatype Inspection = Inspection(errors: seq<string>, notes: seq<string>)

  type Inspector = (string, Thread) -> Inspection

  datatype Report = Report(errors: seq<Finding>, warnings: seq<Remark>, seen: map<string, string>)

  const CLEAN := Report([], [], map[])

  function Complaints(id: string, texts: seq<string>): seq<Finding> {
    seq(|texts|, i requires 0 <= i < |texts| => Complaint(id, texts[i]))
  }

  function Notes(id: string, texts: seq<string>): seq<Remark> {
    seq(|texts|, i requires 0 <= i < |texts| => Note(id, texts[i]))
  }

  function Meet(r: Report, dir: string, th: Thread): Report {
    if th.id in r.seen then r.(errors := r.errors + [Collision(th.id, r.seen[th.id], dir)])
    else r.(seen := r.seen[th.id := dir])
  }

  function Examine(disk: Disk, inspect: Inspector, r: Report, pack: Pack, th: Thread): Report {
    var met := Meet(r, pack.dir, th);
    var script := ScriptPath(pack.dir, th.file);
    if !disk.present(script) then met.(errors := met.errors + [MissingScript(th.id)])
    else
      var found := inspect(script, th);
      met.(errors := met.errors + Complaints(th.id, found.errors), warnings := met.warnings + Notes(th.id, found.notes))
  }

  function ExamineAll(disk: Disk, inspect: Inspector, r: Report, pack: Pack, ths: seq<Thread>): Report {
    if ths == [] then r
    else Examine(disk, inspect, ExamineAll(disk, inspect, r, pack, ths[..|ths| - 1]), pack, ths[|ths| - 1])
  }

  function VisitPack(disk: Disk, inspect: Inspector, r: Report, pack: Pack): Report {
    var r1 := if pack.threads == [] then r.(warnings := r.warnings + [ZeroThreads(pack.dir)]) else r;
    ExamineAll(disk, inspect, r1, pack, pack.threads)
  }

  function Visit(disk: Disk, inspect: Inspector, r: Report, name: string, f: Found): Report {
    match f
    case Skipped => r
    case Broken => r.(errors := r.errors + [ParseFailed(name)])
    case Loaded(pack) => VisitPack(disk, inspect, r, pack)
  }

  function VisitAll(disk: Disk, inspect: Inspector, names: seq<string>, found: seq<Found>): Report
    requires |names| == |found|
  {
    if found == [] then CLEAN
    else
      var n := |found| - 1;
      Visit(disk, inspect, VisitAll(disk, inspect, names[..n], found[..n]), names[n], found[n])
  }

  function Diagnose(disk: Disk, inspect: Inspector): Report {
    match disk.listing
    case Missing => CLEAN.(warnings := [NoPacksDir])
    case Unlistable => CLEAN.(errors := [CannotList])
    case Listed(dirs, _) => VisitAll(disk, inspect, SortedKeys(dirs.Keys), Findings(disk, dirs))
  }

  /** The loop over the threads of a pack. */
  method ExamineThreads(disk: Disk, inspect: Inspector, start: Report, pack: Pack) returns (rep: Report)
    ensures rep == ExamineAll(disk, inspect, start, pack, pack.threads)
  {
    hide ScriptPath, Complaints, Notes;
    rep := start;
    for i := 0 to |pack.threads|
      invariant rep == ExamineAll(disk, inspect, start, pack, pack.threads[..i])
    {
      assert pack.threads[..i + 1][..i] == pack.threads[..i];
      var th := pack.threads[i];
      if th.id in rep.seen {
        rep := rep.(errors := rep.errors + [Collision(th.id, rep.seen[th.id], pack.dir)]);
      } else {
        rep := rep.(seen := rep.seen[th.id := pack.dir]);
      }
      var script := ScriptPath(pack.dir, th.file);
      if !disk.present(script) {
        rep := rep.(errors := rep.errors + [MissingScript(th.id)]);
        continue;
      }
      var found := inspect(script, th);
      rep := rep.(errors := rep.errors + Complaints(th.id, found.errors));
      rep := rep.(warnings := rep.warnings + Notes(th.id, found.notes));
    }
    assert pack.threads[..|pack.threads|] == pack.threads;
  }

  /** `run_pack_doctor`. */
  method RunPackDoctor(disk: Disk, inspect: Inspector) returns (rep: Report)
    ensures rep == Diagnose(disk, inspect)
  {
    hide SortedKeys, VisitPack, FoundAt, Findings, VisitAll;
    FindingsAt(disk);
    rep := CLEAN;
    if disk.listing.Missing? {
      return rep.(warnings := rep.warnings + [NoPacksDir]);
    }
    if disk.listing.Unlistable? {
      return rep.(errors := rep.errors + [CannotList]);
    }
    var names := SortedKeys(disk.listing.dirs.Keys);
    ghost var found := Findings(disk, disk.listing.dirs);
    VisitNone(disk, inspect);
    for i := 0 to |names|
      invariant rep == VisitAll(disk, inspect, names[..i], found[..i])
    {
      VisitStep(disk, inspect, names, found, i);
      var d := disk.listing.dirs[names[i]];
      FoundCases(disk, names[i], d);
      if d.NoManifest? {
        continue;
      }
      var pack := None;
      if d.Decoded? {
        pack := ParsePackManifest(disk, names[i], d.manifest);
      }
      if pack.None? {
        rep := rep.(errors := rep.errors + [ParseFailed(names[i])]);
        continue;
      }
      rep := VisitOne(disk, inspect, rep, pack.value);
    }
    assert names[..|names|] == names && found[..|names|] == found;
  }

  /** The part of the loop behind a parsed manifest. */
  method VisitOne(disk: Disk, inspect: Inspector, start: Report, pack: Pack) returns (rep: Report)
    ensures rep == VisitPack(disk, inspect, start, pack)
  {
    hide ExamineAll;
    rep := start;
    if pack.threads == [] {
      rep := rep.(warnings := rep.warnings + [ZeroThreads(pack.dir)]);
    }
    rep := ExamineThreads(disk, inspect, rep, pack);
  }

  lemma VisitNone(disk: Disk, inspect: Inspector)
    ensures VisitAll(disk, inspect, [], []) == CLEAN
  {
  }

  lemma VisitStep(disk: Disk, inspect: Inspector, names: seq<string>, found: seq<Found>, i: nat)
    requires i < |names| == |found|
    ensures VisitAll(disk, inspect, names[..i + 1], found[..i + 1]) ==
            Visit(disk, inspect, VisitAll(disk, inspect, names[..i], found[..i]), names[i], found[i])
  {
    hide Visit;
    assert names[..i + 1][..i] == names[..i] && found[..i + 1][..i] == found[..i];
  }

  // ----- What the report says of loading

  function Collisions(errors: seq<Finding>): nat {
    if errors == [] then 0
    else Collisions(errors[..|errors| - 1]) + if errors[|errors| - 1].Collision? then 1 else 0
  }

  function ParseFailures(errors: seq<Finding>): nat {
    if errors == [] then 0
    else ParseFailures(errors[..|errors| - 1]) + if errors[|errors| - 1].ParseFailed? then 1 else 0
  }

  lemma {:induction false} CountsConcat(a: seq<Finding>, b: seq<Finding>)
    ensures Collisions(a + b) == Collisions(a) + Collisions(b)
    ensures ParseFailures(a + b) == ParseFailures(a) + ParseFailures(b)
  {
    if b == [] {
      assert a + b == a;
    } else {
      var n := |b| - 1;
      assert (a + b)[..|a + b| - 1] == a + b[..n];
      CountsConcat(a, b[..n]);
    }
  }

  lemma {:induction false} ComplaintsCount(id: string, texts: seq<string>)
    ensures Collisions(Complaints(id, texts)) == 0 && ParseFailures(Complaints(id, texts)) == 0
  {
    if texts != [] {
      var n := |texts| - 1;
      assert Complaints(id, texts)[..n] == Complaints(id, texts[..n]);
      ComplaintsCount(id, texts[..n]);
    }
  }

  lemma OneFinding(f: Finding)
    ensures Collisions([f]) == (if f.Collision? then 1 else 0)
    ensures ParseFailures([f]) == if f.ParseFailed? then 1 else 0
  {
    assert [f][..0] == [];
  }

  /** The threads met so far: those seen first, and those that collided. */
  function Met(r: Report): nat {
    |r.seen| + Collisions(r.errors)
  }

  lemma MeetShape(r: Report, dir: string, th: Thread)
    ensures
      var r' := Meet(r, dir, th);
      && Met(r') == Met(r) + 1
      && ParseFailures(r'.errors) == ParseFailures(r.errors)
      && r'.seen.Keys == r.seen.Keys + {th.id}
  {
    if th.id in r.seen {
      var f := Collision(th.id, r.seen[th.id], dir);
      OneFinding(f);
      CountsConcat(r.errors, [f]);
    } else {
      var seen' := r.seen[th.id := dir];
      assert seen'.Keys == r.seen.Keys + {th.id};
      assert |seen'.Keys| == |r.seen.Keys| + 1;
    }
  }

  lemma ExamineShape(disk: Disk, inspect: Inspector, r: Report, pack: Pack, th: Thread)
    ensures
      var r' := Examine(disk, inspect, r, pack, th);
      && Met(r') == Met(r) + 1
      && ParseFailures(r'.errors) == ParseFailures(r.errors)
      && r'.seen.Keys == r.seen.Keys + {th.id}
  {
    hide Meet, Complaints;
    MeetShape(r, pack.dir, th);
    var met := Meet(r, pack.dir, th);
    var script := ScriptPath(pack.dir, th.file);
    if !disk.present(script) {
      OneFinding(MissingScript(th.id));
      CountsConcat(met.errors, [MissingScript(th.id)]);
    } else {
      var errors := inspect(script, th).errors;
      ComplaintsCount(th.id, errors);
      CountsConcat(met.errors, Complaints(th.id, errors));
    }
  }

  lemma {:induction false} ExamineAllShape(disk: Disk, inspect: Inspector, r: Report, pack: Pack, ths: seq<Thread>)
    ensures
      var r' := ExamineAll(disk, inspect, r, pack, ths);
      && Met(r') == Met(r) + |ths|
      && ParseFailures(r'.errors) == ParseFailures(r.errors)
      && r'.seen.Keys == r.seen.Keys + IdSet(Ids(ths))
  {
    hide Examine, Met, ParseFailures, IdSet;
    if ths == [] {
      assert IdSet([]) == {} by { IdSetNone(); }
    } else {
      var n := |ths| - 1;
      ExamineAllShape(disk, inspect, r, pack, ths[..n]);
      ExamineShape(disk, inspect, ExamineAll(disk, inspect, r, pack, ths[..n]), pack, ths[n]);
      assert Ids(ths) == Ids(ths[..n]) + [ths[n].id];
      IdSetAppend(Ids(ths[..n]), ths[n].id);
    }
  }

  lemma IdSetNone()
    ensures IdSet([]) == {}
  {
  }

  function CountBroken(found: seq<Found>): nat {
    if found == [] then 0
    else CountBroken(found[..|found| - 1]) + if found[|found| - 1].Broken? then 1 else 0
  }

  lemma {:induction false} VisitAllShape(disk: Disk, inspect: Inspector, names: seq<string>, found: seq<Found>)
    requires |names| == |found|
    ensures
      var r := VisitAll(disk, inspect, names, found);
      && Met(r) == |AllIds(found)|
      && ParseFailures(r.errors) == CountBroken(found)
      && r.seen.Keys == IdSet(AllIds(found))
  {
    hide ExamineAll, Met, ParseFailures, IdSet;
    if found == [] {
      NoFindings();
      IdSetNone();
    } else {
      var n := |found| - 1;
      VisitAllShape(disk, inspect, names[..n], found[..n]);
      var r := VisitAll(disk, inspect, names[..n], found[..n]);
      var ids := AllIds(found[..n]);
      match found[n] {
        case Skipped =>
          assert ids + [] == ids;
        case Broken =>
          assert ids + [] == ids;
          FailureShape(r, names[n]);
        case Loaded(pack) =>
          var r1 := if pack.threads == [] then r.(warnings := r.warnings + [ZeroThreads(pack.dir)]) else r;
          WarningShape(r, ZeroThreads(pack.dir));
          ExamineAllShape(disk, inspect, r1, pack, pack.threads);
          IdSetConcat(ids, Ids(pack.threads));
      }
    }
  }

  lemma NoFindings()
    ensures Met(CLEAN) == 0 && ParseFailures([]) == 0 && Collisions([]) == 0
  {
  }

  lemma FailureShape(r: Report, name: string)
    ensures
      var r' := r.(errors := r.errors + [ParseFailed(name)]);
      Met(r') == Met(r) && ParseFailures(r'.errors) == ParseFailures(r.errors) + 1
  {
    OneFinding(ParseFailed(name));
    CountsConcat(r.errors, [ParseFailed(name)]);
  }

  lemma WarningShape(r: Report, remark: Remark)
    ensures Met(r.(warnings := r.warnings + [remark])) == Met(r)
  {
  }

  lemma {:induction false} DistinctCount(ids: seq<string>)
    ensures |IdSet(ids)| <= |ids|
    ensures Distinct(ids) <==> |IdSet(ids)| == |ids|
  {
    hide Distinct;
    if ids == [] {
      NoneDistinct();
    } else {
      var n := |ids| - 1;
      var before, id := ids[..n], ids[n];
      DistinctCount(before);
      DistinctConcat(before, [id]);
      OneDistinct(id);
      assert ids == before + [id];
      IdSetAppend(before, id);
    }
  }

  lemma {:induction false} BrokenCount(found: seq<Found>)
    ensures NoneBroken(found) <==> CountBroken(found) == 0
  {
    if found != [] {
      NoneBrokenStep(found);
      BrokenCount(found[..|found| - 1]);
    }
  }

  /** The errors that bear on loading: the directory, the manifests and the thread ids. */
  predicate NoStructuralError(disk: Disk, r: Report) {
    !disk.listing.Unlistable? && ParseFailures(r.errors) == 0 && Collisions(r.errors) == 0
  }

  /**
   The doctor and the loader agree: on one snapshot, collision errors equal the threads of all
   parsed packs less the distinct ids, and loading succeeds exactly if the doctor reports no
   structural error and no directory entry was unreadable; the index then has exactly the ids that
   the doctor saw.
   */
  lemma DoctorAgreesWithLoader(disk: Disk, inspect: Inspector)
    requires disk.listing.Listed?
    ensures
      var r := Diagnose(disk, inspect);
      var found := Findings(disk, disk.listing.dirs);
      && Collisions(r.errors) == |AllIds(found)| - |IdSet(AllIds(found))|
      && (Load(disk).Some? <==> NoStructuralError(disk, r) && !disk.listing.brokenEntry)
      && (Load(disk).Some? ==> Load(disk).value.threads.Keys == r.seen.Keys)
  {
    hide Distinct, SortedKeys, FoundAt, VisitAll, LoadAll, AllIds, NoneBroken, Findings;
    var names := SortedKeys(disk.listing.dirs.Keys);
    var found := Findings(disk, disk.listing.dirs);
    FindingsAt(disk);
    VisitAllShape(disk, inspect, names, found);
    LoadAllShape(found);
    DistinctCount(AllIds(found));
    BrokenCount(found);
    var r := VisitAll(disk, inspect, names, found);
    assert |r.seen| == |r.seen.Keys|;
  }

  /**
   Doctor soundness: a report without errors means that loading succeeds, with an index over exactly
   the seen ids, unless reading some directory entry failed: the doctor passes over such entries, the
   loader does not.
   */
  lemma DoctorSound(disk: Disk, inspect: Inspector)
    requires Diagnose(disk, inspect).errors == []
    ensures Load(disk).Some? <==> !(disk.listing.Listed? && disk.listing.brokenEntry)
    ensures Load(disk).Some? ==> Load(disk).value.threads.Keys == Diagnose(disk, inspect).seen.Keys
  {
    hide VisitAll, LoadAll, Findings;
    if disk.listing.Listed? {
      DoctorAgreesWithLoader(disk, inspect);
      NoFindings();
    }
  }

  /** Such a directory: the doctor finds nothing wrong with it, and nothing can be loaded from it. */
  lemma UnreadableEntryMissed(present: string -> bool, inspect: Inspector)
    ensures
      var disk := Disk(Listed(map[], true), present);
      Diagnose(disk, inspect).errors == [] && Load(disk).None?
  {
    var none: map<string, PackDir> := map[];
    assert SortedKeys(none.Keys) == [];
  }

  // ----- What is in the report

  /** What one thread of a parsed pack puts among the errors, collisions aside. */
  predicate ThreadSays(disk: Disk, inspect: Inspector, pack: Pack, th: Thread, x: Finding) {
    var script := pack.dir + "/" + th.file;
    match x
    case MissingScript(id) => id == th.id && !disk.present(script)
    case Complaint(id, text) => id == th.id && disk.present(script) && text in inspect(script, th).errors
    case _ => false
  }

  predicate ThreadRemarks(disk: Disk, inspect: Inspector, pack: Pack, th: Thread, y: Remark) {
    var script := pack.dir + "/" + th.file;
    y.Note? && y.id == th.id && disk.present(script) && y.text in inspect(script, th).notes
  }

  ghost predicate PackSays(disk: Disk, inspect: Inspector, pack: Pack, ths: seq<Thread>, x: Finding) {
    exists j :: 0 <= j < |ths| && ThreadSays(disk, inspect, pack, ths[j], x)
  }

  ghost predicate PackRemarks(disk: Disk, inspect: Inspector, pack: Pack, ths: seq<Thread>, y: Remark) {
    exists j :: 0 <= j < |ths| && ThreadRemarks(disk, inspect, pack, ths[j], y)
  }

  /** What one directory puts there. */
  ghost predicate DirSays(disk: Disk, inspect: Inspector, name: string, f: Found, x: Finding) {
    match f
    case Skipped => false
    case Broken => x == ParseFailed(name)
    case Loaded(pack) => PackSays(disk, inspect, pack, pack.threads, x)
  }

  ghost predicate DirRemarks(disk: Disk, inspect: Inspector, f: Found, y: Remark) {
    f.Loaded? && ((f.pack.threads == [] && y == ZeroThreads(f.pack.dir)) || PackRemarks(disk, inspect, f.pack, f.pack.threads, y))
  }

  lemma ExamineSays(disk: Disk, inspect: Inspector, r: Report, pack: Pack, th: Thread, x: Finding, y: Remark)
    requires !x.Collision?
    ensures
      var r' := Examine(disk, inspect, r, pack, th);
      && (x in r'.errors <==> x in r.errors || ThreadSays(disk, inspect, pack, th, x))
      && (y in r'.warnings <==> y in r.warnings || ThreadRemarks(disk, inspect, pack, th, y))
  {
    var script := pack.dir + "/" + th.file;
    var found := inspect(script, th);
    ComplaintIn(th.id, found.errors, x);
    NoteIn(th.id, found.notes, y);
  }

  lemma ComplaintIn(id: string, texts: seq<string>, x: Finding)
    ensures x in Complaints(id, texts) <==> x.Complaint? && x.id == id && x.text in texts
  {
    if x.Complaint? && x.id == id && x.text in texts {
      var i :| 0 <= i < |texts| && texts[i] == x.text;
      assert Complaints(id, texts)[i] == x;
    }
  }

  lemma NoteIn(id: string, texts: seq<string>, y: Remark)
    ensures y in Notes(id, texts) <==> y.Note? && y.id == id && y.text in texts
  {
    if y.Note? && y.id == id && y.text in texts {
      var i :| 0 <= i < |texts| && texts[i] == y.text;
      assert Notes(id, texts)[i] == y;
    }
  }

  lemma {:induction false} ExamineAllSays(
    disk: Disk, inspect: Inspector, r: Report, pack: Pack, ths: seq<Thread>, x: Finding, y: Remark)
    requires !x.Collision?
    ensures
      var r' := ExamineAll(disk, inspect, r, pack, ths);
      && (x in r'.errors <==> x in r.errors || PackSays(disk, inspect, pack, ths, x))
      && (y in r'.warnings <==> y in r.warnings || PackRemarks(disk, inspect, pack, ths, y))
  {
    hide Examine, ThreadSays, ThreadRemarks;
    if ths != [] {
      var n := |ths| - 1;
      ExamineAllSays(disk, inspect, r, pack, ths[..n], x, y);
      ExamineSays(disk, inspect, ExamineAll(disk, inspect, r, pack, ths[..n]), pack, ths[n], x, y);
      LastSays(disk, inspect, pack, ths, x, y);
    }
  }

  lemma LastSays(disk: Disk, inspect: Inspector, pack: Pack, ths: seq<Thread>, x: Finding, y: Remark)
    requires ths != []
    ensures
      var n := |ths| - 1;
      && (PackSays(disk, inspect, pack, ths, x) <==>
            PackSays(disk, inspect, pack, ths[..n], x) || ThreadSays(disk, inspect, pack, ths[n], x))
      && (PackRemarks(disk, inspect, pack, ths, y) <==>
            PackRemarks(disk, inspect, pack, ths[..n], y) || ThreadRemarks(disk, inspect, pack, ths[n], y))
  {
    hide ThreadSays, ThreadRemarks;
    var n := |ths| - 1;
    assert forall j :: 0 <= j < n ==> ths[..n][j] == ths[j];
    if j :| 0 <= j < |ths| && ThreadSays(disk, inspect, pack, ths[j], x) {
      assert j < n ==> ThreadSays(disk, inspect, pack, ths[..n][j], x);
    }
    if j :| 0 <= j < |ths| && ThreadRemarks(disk, inspect, pack, ths[j], y) {
      assert j < n ==> ThreadRemarks(disk, inspect, pack, ths[..n][j], y);
    }
  }

  lemma VisitSays(disk: Disk, inspect: Inspector, r: Report, name: string, f: Found, x: Finding, y: Remark)
    requires !x.Collision?
    ensures
      var r' := Visit(disk, inspect, r, name, f);
      && (x in r'.errors <==> x in r.errors || DirSays(disk, inspect, name, f, x))
      && (y in r'.warnings <==> y in r.warnings || DirRemarks(disk, inspect, f, y))
  {
    hide ExamineAll, PackSays, PackRemarks;
    if f.Loaded? {
      var pack := f.pack;
      var r1 := if pack.threads == [] then r.(warnings := r.warnings + [ZeroThreads(pack.dir)]) else r;
      ExamineAllSays(disk, inspect, r1, pack, pack.threads, x, y);
    }
  }

  /** What is in the report of a walk, collisions aside: what some directory puts there, and nothing else. */
  lemma {:induction false} WalkSays(
    disk: Disk, inspect: Inspector, names: seq<string>, found: seq<Found>, x: Finding, y: Remark)
    requires |names| == |found| && !x.Collision?
    ensures
      var r := VisitAll(disk, inspect, names, found);
      && (x in r.errors <==> exists i :: 0 <= i < |found| && DirSays(disk, inspect, names[i], found[i], x))
      && (y in r.warnings <==> exists i :: 0 <= i < |found| && DirRemarks(disk, inspect, found[i], y))
  {
    hide Visit, DirSays, DirRemarks;
    if found != [] {
      var n := |found| - 1;
      WalkSays(disk, inspect, names[..n], found[..n], x, y);
      VisitSays(disk, inspect, VisitAll(disk, inspect, names[..n], found[..n]), names[n], found[n], x, y);
      if i :| 0 <= i < |found| && DirSays(disk, inspect, names[i], found[i], x) {
        assert i < n ==> DirSays(disk, inspect, names[..n][i], found[..n][i], x);
      }
      if i :| 0 <= i < |found| && DirRemarks(disk, inspect, found[i], y) {
        assert i < n ==> DirRemarks(disk, inspect, found[..n][i], y);
      }
      if i :| 0 <= i < n && DirSays(disk, inspect, names[..n][i], found[..n][i], x) {
        assert DirSays(disk, inspect, names[i], found[i], x);
      }
      if i :| 0 <= i < n && DirRemarks(disk, inspect, found[..n][i], y) {
        assert DirRemarks(disk, inspect, found[i], y);
      }
    }
  }

  /** A thread of a pack in the packs directory. */
  ghost predicate ThreadAt(disk: Disk, dir: string, pack: Pack, th: Thread)
    requires disk.listing.Listed?
  {
    dir in disk.listing.dirs && FoundAt(disk, dir, disk.listing.dirs[dir]) == Loaded(pack) && th in pack.threads
  }

  ghost predicate EmptyAt(disk: Disk, dir: string)
    requires disk.listing.Listed?
  {
    && dir in disk.listing.dirs
    && var f := FoundAt(disk, dir, disk.listing.dirs[dir]);
    f.Loaded? && f.pack.threads == []
  }

  ghost predicate BrokenAt(disk: Disk, dir: string)
    requires disk.listing.Listed?
  {
    dir in disk.listing.dirs && FoundAt(disk, dir, disk.listing.dirs[dir]).Broken?
  }

  /** A check finds this error, or this note, in the script of a thread with this id. */
  ghost predicate ErrorFound(disk: Disk, inspect: Inspector, id: string, text: string)
    requires disk.listing.Listed?
  {
    exists d, pack, th :: ThreadAt(disk, d, pack, th) && th.id == id && text in inspect(d + "/" + th.file, th).errors
  }

  ghost predicate NoteFound(disk: Disk, inspect: Inspector, id: string, text: string)
    requires disk.listing.Listed?
  {
    exists d, pack, th :: ThreadAt(disk, d, pack, th) && th.id == id && text in inspect(d + "/" + th.file, th).notes
  }

  /** The directories in order, and what is found in each. */
  ghost predicate IsWalk(disk: Disk, names: seq<string>, found: seq<Found>) {
    && disk.listing.Listed? && names == SortedKeys(disk.listing.dirs.Keys) && |found| == |names|
    && forall i :: 0 <= i < |names| ==>
         names[i] in disk.listing.dirs && found[i] == FoundAt(disk, names[i], disk.listing.dirs[names[i]])
  }

  predicate ScriptsPresent(disk: Disk, pack: Pack) {
    forall j :: 0 <= j < |pack.threads| ==> disk.present(pack.dir + "/" + pack.threads[j].file)
  }

  /** A pack that parses has all its scripts, and knows its directory. */
  lemma ParsedScripts(disk: Disk, dir: string, d: PackDir)
    requires FoundAt(disk, dir, d).Loaded?
    ensures FoundAt(disk, dir, d).pack.dir == dir && ScriptsPresent(disk, FoundAt(disk, dir, d).pack)
  {
    hide ParseThreads, ArgOk, ArgFrom;
    FoundContent(disk, dir, d);
    ManifestAccepted(disk, dir, d.manifest.threads);
    var pack := FoundAt(disk, dir, d).pack;
    forall j | 0 <= j < |pack.threads| ensures disk.present(pack.dir + "/" + pack.threads[j].file) {
      assert ThreadOk(disk, dir, d.manifest.threads[j]) && ThreadFrom(d.manifest.threads[j], pack.threads[j]);
    }
  }

  lemma ThreadPosition(disk: Disk, names: seq<string>, found: seq<Found>, d: string, pack: Pack, th: Thread)
    returns (i: nat, j: nat)
    requires IsWalk(disk, names, found)
    requires ThreadAt(disk, d, pack, th)
    ensures i < |found| && names[i] == d && found[i] == Loaded(pack) && j < |pack.threads| && pack.threads[j] == th
    ensures pack.dir == d && disk.present(pack.dir + "/" + th.file)
  {
    hide SortedKeys, FoundAt;
    assert d in names;
    i :| 0 <= i < |names| && names[i] == d;
    j :| 0 <= j < |pack.threads| && pack.threads[j] == th;
    ParsedScripts(disk, d, disk.listing.dirs[d]);
  }

  /** The walk's complaints and notes are the errors and notes found. */
  lemma SaidIsFound(disk: Disk, inspect: Inspector, names: seq<string>, found: seq<Found>, id: string, text: string, i: nat)
    requires IsWalk(disk, names, found) && i < |found|
    ensures DirSays(disk, inspect, names[i], found[i], Complaint(id, text)) ==> ErrorFound(disk, inspect, id, text)
    ensures DirRemarks(disk, inspect, found[i], Note(id, text)) ==> NoteFound(disk, inspect, id, text)
  {
    hide SortedKeys, FoundAt;
    if found[i].Loaded? {
      var pack := found[i].pack;
      ParsedScripts(disk, names[i], disk.listing.dirs[names[i]]);
      if j :| 0 <= j < |pack.threads| && ThreadSays(disk, inspect, pack, pack.threads[j], Complaint(id, text)) {
        assert ThreadAt(disk, names[i], pack, pack.threads[j]);
      }
      if j :| 0 <= j < |pack.threads| && ThreadRemarks(disk, inspect, pack, pack.threads[j], Note(id, text)) {
        assert ThreadAt(disk, names[i], pack, pack.threads[j]);
      }
    }
  }

  lemma ErrorIsSaid(disk: Disk, inspect: Inspector, names: seq<string>, found: seq<Found>, id: string, text: string) returns (i: nat)
    requires IsWalk(disk, names, found) && ErrorFound(disk, inspect, id, text)
    ensures i < |found| && DirSays(disk, inspect, names[i], found[i], Complaint(id, text))
  {
    hide SortedKeys, FoundAt;
    var d, pack, th :| ThreadAt(disk, d, pack, th) && th.id == id && text in inspect(d + "/" + th.file, th).errors;
    var j;
    i, j := ThreadPosition(disk, names, found, d, pack, th);
    assert ThreadSays(disk, inspect, pack, pack.threads[j], Complaint(id, text));
  }

  lemma NoteIsSaid(disk: Disk, inspect: Inspector, names: seq<string>, found: seq<Found>, id: string, text: string) returns (i: nat)
    requires IsWalk(disk, names, found) && NoteFound(disk, inspect, id, text)
    ensures i < |found| && DirRemarks(disk, inspect, found[i], Note(id, text))
  {
    hide SortedKeys, FoundAt;
    var d, pack, th :| ThreadAt(disk, d, pack, th) && th.id == id && text in inspect(d + "/" + th.file, th).notes;
    var j;
    i, j := ThreadPosition(disk, names, found, d, pack, th);
    assert ThreadRemarks(disk, inspect, pack, pack.threads[j], Note(id, text));
  }

  lemma WalkOf(disk: Disk) returns (names: seq<string>, found: seq<Found>)
    requires disk.listing.Listed?
    ensures IsWalk(disk, names, found) && found == Findings(disk, disk.listing.dirs)
    ensures forall inspect :: Diagnose(disk, inspect) == VisitAll(disk, inspect, names, found)
  {
    hide SortedKeys, VisitAll, Findings, FoundAt;
    names, found := SortedKeys(disk.listing.dirs.Keys), Findings(disk, disk.listing.dirs);
    FindingsAt(disk);
  }

  /**
   What is in the report of a listed directory, collisions aside. Every error and every note that the checks
   find in a script is there, under its thread's id; a manifest that does not parse is there under its
   directory, and a pack without threads among the warnings; and there is no other complaint, note, parse
   failure or such warning. No script is missing, since a manifest
   with a missing script does not parse.
   */
  lemma ReportSays(disk: Disk, inspect: Inspector, id: string, text: string, dir: string)
    requires disk.listing.Listed?
    ensures
      var r := Diagnose(disk, inspect);
      && (Complaint(id, text) in r.errors <==> ErrorFound(disk, inspect, id, text))
      && (Note(id, text) in r.warnings <==> NoteFound(disk, inspect, id, text))
      && (ParseFailed(dir) in r.errors <==> BrokenAt(disk, dir))
      && (ZeroThreads(dir) in r.warnings <==> EmptyAt(disk, dir))
      && MissingScript(id) !in r.errors && CannotList !in r.errors
  {
    hide Diagnose, VisitAll, IsWalk, ErrorFound, NoteFound, DirSays, DirRemarks, BrokenAt, EmptyAt;
    EmptySays(disk, inspect, dir);
    var names, found := WalkOf(disk);
    StructureSays(disk, inspect, names, found, id, dir);
    WalkSize(disk, names, found);
    WalkSays(disk, inspect, names, found, Complaint(id, text), Note(id, text));
    forall i | 0 <= i < |found|
      ensures DirSays(disk, inspect, names[i], found[i], Complaint(id, text)) ==> ErrorFound(disk, inspect, id, text)
      ensures DirRemarks(disk, inspect, found[i], Note(id, text)) ==> NoteFound(disk, inspect, id, text)
    {
      SaidIsFound(disk, inspect, names, found, id, text, i);
    }
    if ErrorFound(disk, inspect, id, text) {
      var i := ErrorIsSaid(disk, inspect, names, found, id, text);
    }
    if NoteFound(disk, inspect, id, text) {
      var i := NoteIsSaid(disk, inspect, names, found, id, text);
    }
  }

  lemma EmptySays(disk: Disk, inspect: Inspector, dir: string)
    requires disk.listing.Listed?
    ensures ZeroThreads(dir) in Diagnose(disk, inspect).warnings <==> EmptyAt(disk, dir)
  {
    hide SortedKeys, VisitAll, FoundAt, Diagnose;
    var names, found := WalkOf(disk);
    WalkSays(disk, inspect, names, found, CannotList, ZeroThreads(dir));
    forall i | 0 <= i < |found| && found[i].Loaded? ensures found[i].pack.dir == names[i] {
      ParsedScripts(disk, names[i], disk.listing.dirs[names[i]]);
    }
    if EmptyAt(disk, dir) {
      assert dir in names;
      var i :| 0 <= i < |names| && names[i] == dir;
      assert DirRemarks(disk, inspect, found[i], ZeroThreads(dir));
    }
  }

  lemma WalkSize(disk: Disk, names: seq<string>, found: seq<Found>)
    requires IsWalk(disk, names, found)
    ensures |names| == |found|
  {
  }

  lemma StructureSays(disk: Disk, inspect: Inspector, names: seq<string>, found: seq<Found>, id: string, dir: string)
    requires IsWalk(disk, names, found)
    ensures
      var r := VisitAll(disk, inspect, names, found);
      && (ParseFailed(dir) in r.errors <==> BrokenAt(disk, dir))
      && MissingScript(id) !in r.errors && CannotList !in r.errors
  {
    hide SortedKeys, VisitAll, FoundAt;
    WalkSays(disk, inspect, names, found, ParseFailed(dir), NoPacksDir);
    WalkSays(disk, inspect, names, found, MissingScript(id), NoPacksDir);
    WalkSays(disk, inspect, names, found, CannotList, NoPacksDir);
    forall i | 0 <= i < |found| && found[i].Loaded? ensures ScriptsPresent(disk, found[i].pack) {
      ParsedScripts(disk, names[i], disk.listing.dirs[names[i]]);
    }
    if BrokenAt(disk, dir) {
      assert dir in names;
      var i :| 0 <= i < |names| && names[i] == dir;
      assert DirSays(disk, inspect, names[i], found[i], ParseFailed(dir));
    }
  }

  // ----- Collisions, and when a report is clean

  /** Every thread met, in order: its id and the directory of its pack. */
  function ThreadsMet(found: seq<Found>): seq<(string, string)> {
    if found == [] then []
    else
      var last := found[|found| - 1];
      ThreadsMet(found[..|found| - 1]) + if last.Loaded? then PackThreads(last.pack, last.pack.threads) else []
  }

  function PackThreads(pack: Pack, ths: seq<Thread>): seq<(string, string)> {
    seq(|ths|, i requires 0 <= i < |ths| => (ths[i].id, pack.dir))
  }

  /** `first` is where the id was met first. */
  ghost predicate FirstAt(occs: seq<(string, string)>, id: string, first: string) {
    exists p :: 0 <= p < |occs| && occs[p] == (id, first) && forall q :: 0 <= q < p ==> occs[q].0 != id
  }

  ghost predicate MetBefore(occs: seq<(string, string)>, n: nat, id: string)
    requires n <= |occs|
  {
    exists p :: 0 <= p < n && occs[p].0 == id
  }

  /** The collisions and the seen ids are those of the threads met. */
  ghost predicate Accounts(r: Report, occs: seq<(string, string)>) {
    && (forall id :: id in r.seen <==> MetBefore(occs, |occs|, id))
    && (forall id :: id in r.seen ==> FirstAt(occs, id, r.seen[id]))
    && (forall id, first, dir :: Collision(id, first, dir) in r.errors <==>
          FirstAt(occs, id, first) && Repeats(occs, id, dir))
  }

  /** The id is met in `dir` after it was met before. */
  ghost predicate Repeats(occs: seq<(string, string)>, id: string, dir: string) {
    exists q :: 0 <= q < |occs| && occs[q] == (id, dir) && MetBefore(occs, q, id)
  }

  lemma MetStep(occs: seq<(string, string)>, o: (string, string))
    ensures forall id :: MetBefore(occs + [o], |occs| + 1, id) <==> MetBefore(occs, |occs|, id) || o.0 == id
    ensures forall q, id :: 0 <= q <= |occs| ==> (MetBefore(occs + [o], q, id) <==> MetBefore(occs, q, id))
  {
    var more := occs + [o];
    assert more[|occs|] == o;
    forall id ensures MetBefore(more, |more|, id) <==> MetBefore(occs, |occs|, id) || o.0 == id {
      if p :| 0 <= p < |more| && more[p].0 == id {
        assert p < |occs| ==> occs[p].0 == id;
      }
      if p :| 0 <= p < |occs| && occs[p].0 == id {
        assert more[p].0 == id;
      }
    }
    forall q, id | 0 <= q <= |occs| ensures MetBefore(more, q, id) <==> MetBefore(occs, q, id) {
      if p :| 0 <= p < q && more[p].0 == id {
        assert occs[p].0 == id;
      }
      if p :| 0 <= p < q && occs[p].0 == id {
        assert more[p].0 == id;
      }
    }
  }

  lemma FirstStep(occs: seq<(string, string)>, o: (string, string), id: string, first: string)
    ensures FirstAt(occs + [o], id, first) <==>
            FirstAt(occs, id, first) || (o == (id, first) && !MetBefore(occs, |occs|, id))
  {
    var more := occs + [o];
    assert more[|occs|] == o;
    if FirstAt(more, id, first) {
      var p :| 0 <= p < |more| && more[p] == (id, first) && forall q :: 0 <= q < p ==> more[q].0 != id;
      if p < |occs| {
        assert occs[p] == (id, first) && forall q :: 0 <= q < p ==> occs[q] == more[q];
      } else {
        assert forall q :: 0 <= q < |occs| ==> occs[q] == more[q];
      }
    }
    if FirstAt(occs, id, first) {
      var p :| 0 <= p < |occs| && occs[p] == (id, first) && forall q :: 0 <= q < p ==> occs[q].0 != id;
      assert more[p] == (id, first) && forall q :: 0 <= q < p ==> more[q] == occs[q];
    }
    if o == (id, first) && !MetBefore(occs, |occs|, id) {
      assert more[|occs|] == (id, first) && forall q :: 0 <= q < |occs| ==> more[q] == occs[q];
    }
  }

  lemma RepeatsStep(occs: seq<(string, string)>, o: (string, string), id: string, dir: string)
    ensures Repeats(occs + [o], id, dir) <==> Repeats(occs, id, dir) || (o == (id, dir) && MetBefore(occs, |occs|, id))
  {
    hide MetBefore;
    var more := occs + [o];
    MetStep(occs, o);
    assert more[|occs|] == o;
    if q :| 0 <= q < |more| && more[q] == (id, dir) && MetBefore(more, q, id) {
      assert q < |occs| ==> occs[q] == (id, dir) && MetBefore(occs, q, id);
    }
    if q :| 0 <= q < |occs| && occs[q] == (id, dir) && MetBefore(occs, q, id) {
      assert more[q] == (id, dir) && MetBefore(more, q, id);
    }
    if o == (id, dir) && MetBefore(occs, |occs|, id) {
      assert MetBefore(more, |occs|, id);
    }
  }

  lemma RepeatsMet(occs: seq<(string, string)>, id: string, dir: string)
    requires Repeats(occs, id, dir)
    ensures MetBefore(occs, |occs|, id)
  {
    var q :| 0 <= q < |occs| && occs[q] == (id, dir) && MetBefore(occs, q, id);
    assert occs[q].0 == id;
  }

  lemma FirstUnique(occs: seq<(string, string)>, id: string, a: string, b: string)
    requires FirstAt(occs, id, a) && FirstAt(occs, id, b)
    ensures a == b
  {
  }

  lemma NobodyMet()
    ensures Accounts(CLEAN, [])
  {
  }

  lemma CollisionStep(
    r: Report, dir: string, th: Thread, occs: seq<(string, string)>, id: string, first: string, d: string)
    requires Accounts(r, occs)
    ensures Collision(id, first, d) in Meet(r, dir, th).errors <==>
            FirstAt(occs + [(th.id, dir)], id, first) && Repeats(occs + [(th.id, dir)], id, d)
  {
    hide MetBefore, FirstAt, Repeats;
    var o := (th.id, dir);
    FirstStep(occs, o, id, first);
    RepeatsStep(occs, o, id, d);
    if Repeats(occs, id, d) {
      RepeatsMet(occs, id, d);
    }
    if id == th.id && id in r.seen && FirstAt(occs, id, first) {
      FirstUnique(occs, id, first, r.seen[id]);
    }
  }

  lemma MeetAccounts(r: Report, dir: string, th: Thread, occs: seq<(string, string)>)
    requires Accounts(r, occs)
    ensures Accounts(Meet(r, dir, th), occs + [(th.id, dir)])
  {
    hide MetBefore, FirstAt, Repeats;
    var o, r' := (th.id, dir), Meet(r, dir, th);
    var more := occs + [o];
    MetStep(occs, o);
    forall id | id in r'.seen ensures FirstAt(more, id, r'.seen[id]) {
      FirstStep(occs, o, id, r'.seen[id]);
    }
    forall id, first, d ensures Collision(id, first, d) in r'.errors <==> FirstAt(more, id, first) && Repeats(more, id, d) {
      CollisionStep(r, dir, th, occs, id, first, d);
    }
  }

  /** Only collisions and seen ids are accounted for. */
  lemma SameAccounts(r: Report, r': Report, occs: seq<(string, string)>)
    requires Accounts(r, occs) && r'.seen == r.seen
    requires forall x: Finding :: x.Collision? ==> (x in r'.errors <==> x in r.errors)
    ensures Accounts(r', occs)
  {
    hide MetBefore, FirstAt, Repeats;
  }

  lemma ExamineAccounts(disk: Disk, inspect: Inspector, r: Report, pack: Pack, th: Thread, occs: seq<(string, string)>)
    requires Accounts(r, occs)
    ensures Accounts(Examine(disk, inspect, r, pack, th), occs + [(th.id, pack.dir)])
  {
    hide Accounts, Meet;
    MeetAccounts(r, pack.dir, th, occs);
    var met, r' := Meet(r, pack.dir, th), Examine(disk, inspect, r, pack, th);
    SameAccounts(met, r', occs + [(th.id, pack.dir)]);
  }

  lemma {:induction false} PackAccounts(
    disk: Disk, inspect: Inspector, r: Report, pack: Pack, ths: seq<Thread>, occs: seq<(string, string)>)
    requires Accounts(r, occs)
    ensures Accounts(ExamineAll(disk, inspect, r, pack, ths), occs + PackThreads(pack, ths))
  {
    hide Accounts, Examine;
    if ths == [] {
      assert occs + PackThreads(pack, ths) == occs;
    } else {
      var n := |ths| - 1;
      PackAccounts(disk, inspect, r, pack, ths[..n], occs);
      ExamineAccounts(disk, inspect, ExamineAll(disk, inspect, r, pack, ths[..n]), pack, ths[n], occs + PackThreads(pack, ths[..n]));
      assert occs + PackThreads(pack, ths) == (occs + PackThreads(pack, ths[..n])) + [(ths[n].id, pack.dir)];
    }
  }

  /**
   The collisions and the seen ids, exactly: an id is seen if a thread has it, and stands for the directory
   where it was met first; and there is a collision error for each directory where it is met again, which
   names the first one.
   */
  lemma {:induction false} WalkAccounts(disk: Disk, inspect: Inspector, names: seq<string>, found: seq<Found>)
    requires |names| == |found|
    ensures Accounts(VisitAll(disk, inspect, names, found), ThreadsMet(found))
  {
    hide Accounts, ExamineAll, PackThreads;
    if found == [] {
      NobodyMet();
    } else {
      var n := |found| - 1;
      WalkAccounts(disk, inspect, names[..n], found[..n]);
      var r, occs := VisitAll(disk, inspect, names[..n], found[..n]), ThreadsMet(found[..n]);
      match found[n] {
        case Skipped =>
          assert occs + [] == occs;
        case Broken =>
          assert occs + [] == occs;
          SameAccounts(r, r.(errors := r.errors + [ParseFailed(names[n])]), occs);
        case Loaded(pack) =>
          var r1 := if pack.threads == [] then r.(warnings := r.warnings + [ZeroThreads(pack.dir)]) else r;
          SameAccounts(r, r1, occs);
          PackAccounts(disk, inspect, r1, pack, pack.threads, occs);
      }
    }
  }

  lemma {:induction false} CollisionCounted(errors: seq<Finding>, x: Finding)
    requires x in errors && x.Collision?
    ensures Collisions(errors) > 0
  {
    var n := |errors| - 1;
    if errors[n] != x {
      assert x in errors[..n];
      CollisionCounted(errors[..n], x);
    }
  }

  /**
   When a report has no errors, exactly: no manifest is broken, no thread id repeats, and the checks find no
   error in any script.
   */
  lemma CleanReport(disk: Disk, inspect: Inspector)
    requires disk.listing.Listed?
    ensures Diagnose(disk, inspect).errors == [] <==>
            && (forall dir :: !BrokenAt(disk, dir))
            && Distinct(AllIds(Findings(disk, disk.listing.dirs)))
            && (forall id, text :: !ErrorFound(disk, inspect, id, text))
  {
    hide Diagnose, BrokenAt, ErrorFound, Distinct, AllIds, Findings, Load, IdSet, NoteFound;
    var errors, ids := Diagnose(disk, inspect).errors, AllIds(Findings(disk, disk.listing.dirs));
    DoctorAgreesWithLoader(disk, inspect);
    DistinctCount(ids);
    NoFindings();
    if errors == [] {
      forall dir ensures !BrokenAt(disk, dir) {
        ReportSays(disk, inspect, "", "", dir);
      }
      forall id, text ensures !ErrorFound(disk, inspect, id, text) {
        ReportSays(disk, inspect, id, text, "");
      }
    } else {
      var x := errors[0];
      assert x in errors;
      match x {
        case CannotList => ReportSays(disk, inspect, "", "", "");
        case ParseFailed(dir) => ReportSays(disk, inspect, "", "", dir);
        case MissingScript(id) => ReportSays(disk, inspect, id, "", "");
        case Complaint(id, text) => ReportSays(disk, inspect, id, text, "");
        case Collision(_, _, _) => CollisionCounted(errors, x);
      }
    }
  }

  /** Without a listing there is one error or one warning, and nothing else. */
  lemma NothingListed(disk: Disk, inspect: Inspector)
    ensures disk.listing.Missing? ==> Diagnose(disk, inspect) == Report([], [NoPacksDir], map[])
    ensures disk.listing.Unlistable? ==> Diagnose(disk, inspect) == Report([CannotList], [], map[])
  {
  }
}

/**
 The board drawn from the entity table (crates/hawk/src/app.rs:143-193): bucket counts and the
 multi-key stable sort, at one instant.
 */
module Board {
  import opened Severity
  import opened Ordering
  import opened HawkFrame
  import opened Entities

  datatype Bucket = OkBucket | WarnBucket | FailBucket | StaleBucket | DeadBucket

  function BucketOf(lens: Lens, e: Entity): Bucket {
    match LivenessOf(lens, e)
    case Stale => StaleBucket
    case Dead => DeadBucket
    case _ =>
      match e.lastLevel
      case Fail => FailBucket
      case Warn => WarnBucket
      case _ => OkBucket
  }

  function Count(lens: Lens, rows: seq<Entity>, b: Bucket): nat {
    if rows == [] then 0
    else Count(lens, rows[..|rows| - 1], b) + if BucketOf(lens, rows[|rows| - 1]) == b then 1 else 0
  }

  lemma CountNothing(lens: Lens, rows: seq<Entity>)
    ensures forall b :: Count(lens, rows[..0], b) == 0
  {
  }

  /** One more row goes into its bucket. */
  lemma CountStep(lens: Lens, rows: seq<Entity>, i: nat, b: Bucket)
    requires i < |rows|
    ensures Count(lens, rows[..i + 1], b) ==
            if BucketOf(lens, rows[i]) == b then Count(lens, rows[..i], b) + 1 else Count(lens, rows[..i], b)
  {
    hide BucketOf;
    assert rows[..i + 1][..i] == rows[..i];
  }

  /** Neither stale nor dead. */
  predicate Live(lens: Lens, e: Entity) {
    !LivenessOf(lens, e).Stale? && !LivenessOf(lens, e).Dead?
  }

  /** The positions in a list of rows that a predicate picks. */
  ghost function Where(rows: seq<Entity>, p: Entity -> bool): set<nat> {
    set i: nat | i < |rows| && p(rows[i])
  }

  lemma {:induction false} CountIsWhere(lens: Lens, rows: seq<Entity>, b: Bucket, p: Entity -> bool)
    requires forall e :: p(e) <==> BucketOf(lens, e) == b
    ensures Count(lens, rows, b) == |Where(rows, p)|
  {
    hide BucketOf, Where;
    if rows == [] {
      NowhereIn(rows, p);
    } else {
      var n := |rows| - 1;
      CountIsWhere(lens, rows[..n], b, p);
      WhereStep(rows, p);
    }
  }

  lemma NowhereIn(rows: seq<Entity>, p: Entity -> bool)
    requires rows == []
    ensures Where(rows, p) == {}
  {
  }

  lemma WhereStep(rows: seq<Entity>, p: Entity -> bool)
    requires rows != []
    ensures
      var n := |rows| - 1;
      |Where(rows, p)| == |Where(rows[..n], p)| + if p(rows[n]) then 1 else 0
  {
    var n := |rows| - 1;
    var before, all := Where(rows[..n], p), Where(rows, p);
    forall i: nat | i < n ensures i in all <==> i in before {
      assert rows[..n][i] == rows[i];
    }
    assert all == if p(rows[n]) then before + {n} else before;
  }

  /** What the five counters count. */
  ghost predicate Tallied(lens: Lens, rows: seq<Entity>, ok: nat, warn: nat, fail: nat, stale: nat, dead: nat) {
    && ok == |set i: nat | i < |rows| && Live(lens, rows[i]) && rows[i].lastLevel in {Ok, Info, Level.Unknown}|
    && warn == |set i: nat | i < |rows| && Live(lens, rows[i]) && rows[i].lastLevel.Warn?|
    && fail == |set i: nat | i < |rows| && Live(lens, rows[i]) && rows[i].lastLevel.Fail?|
    && stale == |set i: nat | i < |rows| && LivenessOf(lens, rows[i]).Stale?|
    && dead == |set i: nat | i < |rows| && LivenessOf(lens, rows[i]).Dead?|
  }

  lemma BucketMeaning(lens: Lens)
    ensures forall e :: BucketOf(lens, e) == OkBucket <==> Live(lens, e) && e.lastLevel in {Ok, Info, Level.Unknown}
    ensures forall e :: BucketOf(lens, e) == WarnBucket <==> Live(lens, e) && e.lastLevel.Warn?
    ensures forall e :: BucketOf(lens, e) == FailBucket <==> Live(lens, e) && e.lastLevel.Fail?
    ensures forall e :: BucketOf(lens, e) == StaleBucket <==> LivenessOf(lens, e).Stale?
    ensures forall e :: BucketOf(lens, e) == DeadBucket <==> LivenessOf(lens, e).Dead?
  {
    hide LivenessOf;
  }

  lemma CountsAreTallied(lens: Lens, rows: seq<Entity>)
    ensures Tallied(lens, rows, Count(lens, rows, OkBucket), Count(lens, rows, WarnBucket), Count(lens, rows, FailBucket),
                    Count(lens, rows, StaleBucket), Count(lens, rows, DeadBucket))
  {
    BucketMeaning(lens);
    hide Count, LivenessOf, BucketOf, Live;
    var ok := (e: Entity) => Live(lens, e) && e.lastLevel in {Ok, Info, Level.Unknown};
    var warn := (e: Entity) => Live(lens, e) && e.lastLevel.Warn?;
    var fail := (e: Entity) => Live(lens, e) && e.lastLevel.Fail?;
    var stale := (e: Entity) => LivenessOf(lens, e).Stale?;
    var dead := (e: Entity) => LivenessOf(lens, e).Dead?;
    CountIsWhere(lens, rows, OkBucket, ok);
    CountIsWhere(lens, rows, WarnBucket, warn);
    CountIsWhere(lens, rows, FailBucket, fail);
    CountIsWhere(lens, rows, StaleBucket, stale);
    CountIsWhere(lens, rows, DeadBucket, dead);
    assert Where(rows, ok) == set i: nat | i < |rows| && Live(lens, rows[i]) && rows[i].lastLevel in {Ok, Info, Level.Unknown};
    assert Where(rows, warn) == set i: nat | i < |rows| && Live(lens, rows[i]) && rows[i].lastLevel.Warn?;
    assert Where(rows, fail) == set i: nat | i < |rows| && Live(lens, rows[i]) && rows[i].lastLevel.Fail?;
    assert Where(rows, stale) == set i: nat | i < |rows| && LivenessOf(lens, rows[i]).Stale?;
    assert Where(rows, dead) == set i: nat | i < |rows| && LivenessOf(lens, rows[i]).Dead?;
  }

  lemma {:induction false} BucketsPartition(lens: Lens, rows: seq<Entity>)
    ensures Count(lens, rows, OkBucket) + Count(lens, rows, WarnBucket) + Count(lens, rows, FailBucket)
            + Count(lens, rows, StaleBucket) + Count(lens, rows, DeadBucket) == |rows|
  {
    hide BucketOf;
    if rows != [] {
      BucketsPartition(lens, rows[..|rows| - 1]);
    }
  }

  /** With no ingest, the dead total never decreases as time advances. */
  lemma {:induction false} DeadNeverDecreases(lens: Lens, later: Stamp, rows: seq<Entity>)
    requires lens.now.nanos <= later.nanos
    ensures Count(lens, rows, DeadBucket) <= Count(lens.(now := later), rows, DeadBucket)
  {
    hide LivenessOf;
    if rows != [] {
      DeadNeverDecreases(lens, later, rows[..|rows| - 1]);
      LivenessMonotone(lens, later, rows[|rows| - 1]);
    }
  }

  // ----- The comparator

  function LiveRank(l: Liveness): nat {
    match l
    case Dead => 0
    case Stale => 1
    case Active => 2
    case Dream => 3
  }

  /** What the comparator looks at: liveness, severity, recency (newest first), id. */
  datatype SortKey = SortKey(live: nat, level: nat, seen: int, id: string)

  function KeyOf(lens: Lens, e: Entity): SortKey {
    SortKey(LiveRank(LivenessOf(lens, e)), e.lastLevel.Rank(), e.lastSeen.nanos, e.id)
  }

  predicate KeyLe(a: SortKey, b: SortKey) {
    || a.live < b.live
    || (a.live == b.live && a.level < b.level)
    || (a.live == b.live && a.level == b.level && a.seen > b.seen)
    || (a.live == b.live && a.level == b.level && a.seen == b.seen && Le(a.id, b.id))
  }

  /** `cmp(a, b) != Greater`. */
  predicate NotAfter(lens: Lens, a: Entity, b: Entity) {
    KeyLe(KeyOf(lens, a), KeyOf(lens, b))
  }

  lemma NotAfterTotal(lens: Lens, a: Entity, b: Entity)
    ensures NotAfter(lens, a, b) || NotAfter(lens, b, a)
  {
    hide KeyOf;
    LeTotal(KeyOf(lens, a).id, KeyOf(lens, b).id);
  }

  lemma NotAfterTransitive(lens: Lens, a: Entity, b: Entity, c: Entity)
    requires NotAfter(lens, a, b) && NotAfter(lens, b, c)
    ensures NotAfter(lens, a, c)
  {
    hide KeyOf, Le;
    if Le(KeyOf(lens, a).id, KeyOf(lens, b).id) && Le(KeyOf(lens, b).id, KeyOf(lens, c).id) {
      LeTransitive(KeyOf(lens, a).id, KeyOf(lens, b).id, KeyOf(lens, c).id);
    }
  }

  // ----- Stable sorting

  ghost predicate Sorted(lens: Lens, rows: seq<Entity>) {
    forall i, j :: 0 <= i < j < |rows| ==> NotAfter(lens, rows[i], rows[j])
  }

  predicate Tied(lens: Lens, a: Entity, b: Entity) {
    NotAfter(lens, a, b) && NotAfter(lens, b, a)
  }

  /** The rows tied with `x`, in order. */
  function Peers(lens: Lens, rows: seq<Entity>, x: Entity): seq<Entity> {
    if rows == [] then []
    else
      Peers(lens, rows[..|rows| - 1], x) + if Tied(lens, rows[|rows| - 1], x) then [rows[|rows| - 1]] else []
  }

  /** What `sort_by` promises: ascending, and tied rows keep their order. */
  ghost predicate IsStableSort(lens: Lens, rows: seq<Entity>, out: seq<Entity>) {
    && Sorted(lens, out)
    && multiset(out) == multiset(rows)
    && forall x :: Peers(lens, out, x) == Peers(lens, rows, x)
  }

  function Place(lens: Lens, rows: seq<Entity>, x: Entity): seq<Entity> {
    if rows == [] || NotAfter(lens, rows[|rows| - 1], x) then rows + [x]
    else Place(lens, rows[..|rows| - 1], x) + [rows[|rows| - 1]]
  }

  function StableSort(lens: Lens, rows: seq<Entity>): seq<Entity> {
    if rows == [] then []
    else Place(lens, StableSort(lens, rows[..|rows| - 1]), rows[|rows| - 1])
  }

  lemma {:induction false} PlaceKeeps(lens: Lens, rows: seq<Entity>, x: Entity)
    ensures multiset(Place(lens, rows, x)) == multiset(rows) + multiset{x}
  {
    hide NotAfter;
    if rows != [] {
      var n := |rows| - 1;
      assert rows == rows[..n] + [rows[n]];
      PlaceKeeps(lens, rows[..n], x);
    }
  }

  lemma {:induction false} PlaceSorted(lens: Lens, rows: seq<Entity>, x: Entity)
    requires Sorted(lens, rows)
    ensures Sorted(lens, Place(lens, rows, x))
  {
    hide NotAfter;
    if rows != [] {
      var n := |rows| - 1;
      if NotAfter(lens, rows[n], x) {
        forall i | 0 <= i < n ensures NotAfter(lens, rows[i], x) {
          NotAfterTransitive(lens, rows[i], rows[n], x);
        }
      } else {
        NotAfterTotal(lens, rows[n], x);
        PlaceSorted(lens, rows[..n], x);
        var placed := Place(lens, rows[..n], x);
        forall i | 0 <= i < |placed| ensures NotAfter(lens, placed[i], rows[n]) {
          PlaceMember(lens, rows[..n], x, i);
        }
      }
    }
  }

  lemma {:induction false} PlaceMember(lens: Lens, rows: seq<Entity>, x: Entity, i: nat)
    requires i < |Place(lens, rows, x)|
    ensures Place(lens, rows, x)[i] == x || exists k :: 0 <= k < |rows| && rows[k] == Place(lens, rows, x)[i]
  {
    hide NotAfter;
    if rows != [] && !NotAfter(lens, rows[|rows| - 1], x) {
      var n := |rows| - 1;
      if i < |Place(lens, rows[..n], x)| {
        PlaceMember(lens, rows[..n], x, i);
      }
    }
  }

  /** Moving `x` in front of a row that comes after it disturbs no set of peers. */
  lemma {:induction false} PlaceStable(lens: Lens, rows: seq<Entity>, x: Entity, y: Entity)
    ensures Peers(lens, Place(lens, rows, x), y) == Peers(lens, rows + [x], y)
  {
    hide NotAfter;
    assert (rows + [x])[..|rows|] == rows;
    if rows != [] && !NotAfter(lens, rows[|rows| - 1], x) {
      var n := |rows| - 1;
      PlaceStable(lens, rows[..n], x, y);
      var placed := Place(lens, rows[..n], x);
      assert (placed + [rows[n]])[..|placed|] == placed;
      assert (rows[..n] + [x])[..n] == rows[..n];
      if Tied(lens, rows[n], y) && Tied(lens, x, y) {
        NotAfterTransitive(lens, rows[n], y, x);
      }
    }
  }

  lemma {:induction false} StableSortPeers(lens: Lens, rows: seq<Entity>, x: Entity)
    ensures Peers(lens, StableSort(lens, rows), x) == Peers(lens, rows, x)
  {
    hide Tied, NotAfter;
    if rows != [] {
      var n := |rows| - 1;
      var before := StableSort(lens, rows[..n]);
      StableSortPeers(lens, rows[..n], x);
      PlaceStable(lens, before, rows[n], x);
      assert (before + [rows[n]])[..|before|] == before;
    }
  }

  lemma {:induction false} StableSortSorts(lens: Lens, rows: seq<Entity>)
    ensures Sorted(lens, StableSort(lens, rows))
    ensures multiset(StableSort(lens, rows)) == multiset(rows)
  {
    hide NotAfter;
    if rows != [] {
      var n := |rows| - 1;
      var before := StableSort(lens, rows[..n]);
      StableSortSorts(lens, rows[..n]);
      PlaceSorted(lens, before, rows[n]);
      PlaceKeeps(lens, before, rows[n]);
      assert rows == rows[..n] + [rows[n]];
    }
  }

  lemma StableSortIsStable(lens: Lens, rows: seq<Entity>)
    ensures IsStableSort(lens, rows, StableSort(lens, rows))
  {
    hide Sorted, Peers, StableSort;
    StableSortSorts(lens, rows);
    forall x ensures Peers(lens, StableSort(lens, rows), x) == Peers(lens, rows, x) {
      StableSortPeers(lens, rows, x);
    }
  }

  // ----- A stable sort is unique, so the algorithm behind `sort_by` does not matter

  lemma {:induction false} PeersFront(lens: Lens, rows: seq<Entity>, x: Entity)
    requires rows != []
    ensures Peers(lens, rows, x) ==
            (if Tied(lens, rows[0], x) then [rows[0]] else []) + Peers(lens, rows[1..], x)
  {
    hide Tied;
    var n := |rows| - 1;
    if n > 0 {
      PeersFront(lens, rows[..n], x);
      assert rows[..n][1..] == rows[1..][..n - 1];
    }
  }

  lemma {:induction false} PeersMember(lens: Lens, rows: seq<Entity>, x: Entity)
    requires Peers(lens, rows, x) != []
    ensures exists k :: 0 <= k < |rows| && Tied(lens, rows[k], x)
  {
    hide Tied;
    var n := |rows| - 1;
    if !Tied(lens, rows[n], x) {
      PeersMember(lens, rows[..n], x);
      var k :| 0 <= k < n && Tied(lens, rows[..n][k], x);
      assert rows[k] == rows[..n][k];
    }
  }

  ghost predicate SamePeers(lens: Lens, a: seq<Entity>, b: seq<Entity>) {
    forall x :: Peers(lens, a, x) == Peers(lens, b, x)
  }

  /** The head of one arrangement comes no later than the head of the other. */
  lemma HeadFirst(lens: Lens, a: seq<Entity>, b: seq<Entity>)
    requires a != [] && Sorted(lens, b) && SamePeers(lens, a, b)
    ensures b != [] && NotAfter(lens, b[0], a[0])
  {
    hide NotAfter;
    NotAfterTotal(lens, a[0], a[0]);
    PeersFront(lens, a, a[0]);
    assert Peers(lens, b, a[0]) != [];
    PeersMember(lens, b, a[0]);
    var k :| 0 <= k < |b| && Tied(lens, b[k], a[0]);
    if k > 0 {
      NotAfterTransitive(lens, b[0], b[k], a[0]);
    }
  }

  lemma {:induction false} StableSortUnique(lens: Lens, a: seq<Entity>, b: seq<Entity>)
    requires Sorted(lens, a) && Sorted(lens, b) && SamePeers(lens, a, b)
    ensures a == b
  {
    hide NotAfter;
    if a == [] {
      if b != [] {
        HeadFirst(lens, b, a);
      }
    } else {
      HeadFirst(lens, a, b);
      HeadFirst(lens, b, a);
      NotAfterTotal(lens, a[0], a[0]);
      PeersFront(lens, a, a[0]);
      PeersFront(lens, b, a[0]);
      assert a[0] == Peers(lens, a, a[0])[0] == Peers(lens, b, a[0])[0] == b[0];
      forall x ensures Peers(lens, a[1..], x) == Peers(lens, b[1..], x) {
        PeersFront(lens, a, x);
        PeersFront(lens, b, x);
        var front := if Tied(lens, a[0], x) then [a[0]] else [];
        assert Peers(lens, a[1..], x) == (front + Peers(lens, a[1..], x))[|front|..];
        assert Peers(lens, b[1..], x) == (front + Peers(lens, b[1..], x))[|front|..];
      }
      StableSortUnique(lens, a[1..], b[1..]);
    }
  }

  // ----- Counts and order agree

  lemma MultisetWithout(rows: seq<Entity>, k: nat)
    requires k < |rows|
    ensures multiset(rows[..k] + rows[k + 1..]) == multiset(rows) - multiset{rows[k]}
  {
    assert rows == rows[..k] + ([rows[k]] + rows[k + 1..]);
  }

  /** Where the first of `a` stands in a rearrangement of `a`. */
  lemma MatchOf(a: seq<Entity>, b: seq<Entity>) returns (k: nat)
    requires a != [] && multiset(a) == multiset(b)
    ensures k < |b| && b[k] == a[0] && multiset(a[1..]) == multiset(b[..k] + b[k + 1..])
  {
    k := PositionIn(a, b);
    TailMultiset(a);
    MultisetWithout(b, k);
  }

  lemma TailMultiset(rows: seq<Entity>)
    requires rows != []
    ensures multiset(rows[1..]) == multiset(rows) - multiset{rows[0]}
  {
    assert rows == [rows[0]] + rows[1..];
  }

  lemma PositionIn(a: seq<Entity>, b: seq<Entity>) returns (k: nat)
    requires a != [] && multiset(a) == multiset(b)
    ensures k < |b| && b[k] == a[0]
  {
    assert a[0] in multiset(a);
    assert a[0] in multiset(b);
    k :| 0 <= k < |b| && b[k] == a[0];
  }

  lemma CountWithout(lens: Lens, rows: seq<Entity>, k: nat, bucket: Bucket)
    requires k < |rows|
    ensures Count(lens, rows, bucket) ==
            Count(lens, rows[..k] + rows[k + 1..], bucket) + Count(lens, [rows[k]], bucket)
  {
    hide Count;
    assert rows == (rows[..k] + [rows[k]]) + rows[k + 1..];
    CountConcat(lens, rows[..k], [rows[k]], bucket);
    CountConcat(lens, rows[..k] + [rows[k]], rows[k + 1..], bucket);
    CountConcat(lens, rows[..k], rows[k + 1..], bucket);
  }

  lemma {:induction false} CountOfMultiset(lens: Lens, a: seq<Entity>, b: seq<Entity>, bucket: Bucket)
    requires multiset(a) == multiset(b)
    ensures Count(lens, a, bucket) == Count(lens, b, bucket)
  {
    hide Count;
    if a == [] {
      assert |multiset(b)| == 0;
      assert b == [];
    } else {
      var k := MatchOf(a, b);
      CountOfMultiset(lens, a[1..], b[..k] + b[k + 1..], bucket);
      CountWithout(lens, a, 0, bucket);
      CountWithout(lens, b, k, bucket);
      assert a[..0] + a[1..] == a[1..];
    }
  }

  lemma {:induction false} CountConcat(lens: Lens, a: seq<Entity>, b: seq<Entity>, bucket: Bucket)
    ensures Count(lens, a + b, bucket) == Count(lens, a, bucket) + Count(lens, b, bucket)
  {
    hide BucketOf;
    if b == [] {
      assert a + b == a;
    } else {
      var n := |b| - 1;
      assert (a + b)[..|a + b| - 1] == a + b[..n];
      CountConcat(lens, a, b[..n], bucket);
    }
  }

  lemma SortedByLiveness(lens: Lens, a: Entity, b: Entity)
    requires NotAfter(lens, a, b)
    ensures LiveRank(LivenessOf(lens, a)) <= LiveRank(LivenessOf(lens, b))
  {
    hide LivenessOf, Le;
  }

  lemma BucketByLiveness(lens: Lens, e: Entity)
    ensures BucketOf(lens, e).DeadBucket? <==> LiveRank(LivenessOf(lens, e)) == 0
    ensures BucketOf(lens, e).StaleBucket? <==> LiveRank(LivenessOf(lens, e)) == 1
  {
    hide LivenessOf;
  }

  /** In a sorted board the dead rows come first and the stale rows next. */
  lemma {:induction false} SortedRanks(lens: Lens, rows: seq<Entity>, i: nat)
    requires Sorted(lens, rows) && i < |rows|
    ensures i < Count(lens, rows, DeadBucket) <==> LiveRank(LivenessOf(lens, rows[i])) == 0
    ensures i < Count(lens, rows, DeadBucket) + Count(lens, rows, StaleBucket) <==>
            LiveRank(LivenessOf(lens, rows[i])) <= 1
  {
    hide LivenessOf, NotAfter, LiveRank, BucketOf;
    var n := |rows| - 1;
    CountAtMost(lens, rows[..n]);
    BucketByLiveness(lens, rows[n]);
    if i < n {
      SortedRanks(lens, rows[..n], i);
      SortedByLiveness(lens, rows[i], rows[n]);
    } else if n > 0 {
      SortedRanks(lens, rows[..n], n - 1);
      SortedByLiveness(lens, rows[n - 1], rows[n]);
    }
  }

  lemma {:induction false} CountAtMost(lens: Lens, rows: seq<Entity>)
    ensures Count(lens, rows, DeadBucket) + Count(lens, rows, StaleBucket) <= |rows|
  {
    BucketsPartition(lens, rows);
  }

  /**
   At one instant the counts and the board agree: the first `dead` rows of the sorted board are
   exactly the dead ones and the next `stale` rows exactly the stale ones.
   */
  lemma BoardAgrees(lens: Lens, rows: seq<Entity>, out: seq<Entity>)
    requires IsStableSort(lens, rows, out)
    ensures |out| == |rows|
    ensures
      var dead, stale := Count(lens, rows, DeadBucket), Count(lens, rows, StaleBucket);
      && (forall i :: 0 <= i < |out| ==> (i < dead <==> LivenessOf(lens, out[i]).Dead?))
      && (forall i :: 0 <= i < |out| ==> (dead <= i < dead + stale <==> LivenessOf(lens, out[i]).Stale?))
  {
    hide Sorted, Count, LivenessOf;
    assert |multiset(out)| == |multiset(rows)|;
    CountOfMultiset(lens, rows, out, DeadBucket);
    CountOfMultiset(lens, rows, out, StaleBucket);
    forall i | 0 <= i < |out|
      ensures i < Count(lens, out, DeadBucket) <==> LivenessOf(lens, out[i]).Dead?
      ensures Count(lens, out, DeadBucket) <= i < Count(lens, out, DeadBucket) + Count(lens, out, StaleBucket) <==>
              LivenessOf(lens, out[i]).Stale?
    {
      SortedRanks(lens, out, i);
    }
  }

  /** How far down the list of concerns a level stands: fail, warn, info, ok, unknown. */
  predicate WorseOrEqual(a: Level, b: Level) {
    match b
    case Fail => a.Fail?
    case Warn => a.Fail? || a.Warn?
    case Info => a.Fail? || a.Warn? || a.Info?
    case Ok => !a.Unknown?
    case Unknown => true
  }

  /**
   Within one liveness the board shows the worst level first; within one level the newest first; and
   rows seen at the same instant by id. Live rows stand above quiet ones.
   */
  lemma BoardOrder(lens: Lens, out: seq<Entity>, i: nat, j: nat)
    requires Sorted(lens, out) && i < j < |out|
    ensures
      var a, b := out[i], out[j];
      && (LivenessOf(lens, a).Dream? ==> LivenessOf(lens, b).Dream?)
      && (LivenessOf(lens, a) == LivenessOf(lens, b) ==> WorseOrEqual(a.lastLevel, b.lastLevel))
      && (LivenessOf(lens, a) == LivenessOf(lens, b) && a.lastLevel == b.lastLevel ==> a.lastSeen.nanos >= b.lastSeen.nanos)
      && (LivenessOf(lens, a) == LivenessOf(lens, b) && a.lastLevel == b.lastLevel && a.lastSeen.nanos == b.lastSeen.nanos
          ==> Le(a.id, b.id))
  {
    hide LivenessOf, Le;
    assert NotAfter(lens, out[i], out[j]);
  }
}

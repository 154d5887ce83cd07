/** Entity rows and their liveness (crates/hawk/src/app.rs:10-42, 106-141, 196-204). */
module Entities {
  import opened Basics
  import opened Severity
  import opened KvBag
  import opened HawkFrame
  import opened Decimal

  datatype Entity = Entity(
    scope: string, id: string, lastLevel: Level, lastMsg: string, lastSeen: Stamp, kind: string, kv: Bag)

  datatype Liveness = Active | Dream | Stale | Dead

  /** Rust's integer division, which rounds toward zero. */
  function TruncDiv(a: int, b: int): int
    requires b > 0
  {
    if a < 0 then -((-a) / b) else a / b
  }

  const NANOS_PER_SECOND: int := 1_000_000_000

  /** `(now - last_seen).whole_seconds()`. */
  function AgeSeconds(seen: Stamp, now: Stamp): int {
    TruncDiv(now.nanos - seen.nanos, NANOS_PER_SECOND)
  }

  /** `compute_liveness_with_ttl`. */
  function LivenessAt(seen: Stamp, now: Stamp, staleS: int, deadS: int): Liveness {
    var age := AgeSeconds(seen, now);
    var half := TruncDiv(staleS, 2);
    if age >= deadS then Dead
    else if age >= staleS then Stale
    else if age <= (if half > 1 then half else 1) then Active
    else Dream
  }

  /** `parse_ttl_from_kv`. */
  function TtlOf(kv: Bag, key: string): Option<int> {
    if key !in kv then None
    else
      match ParseI64(kv[key])
      case None => None
      case Some(n) => if n > 0 then Some(n) else None
  }

  /** The instant a board is drawn at and the mirror's default TTLs. */
  datatype Lens = Lens(now: Stamp, staleS: int, deadS: int)

  /** `compute_entity_liveness`. */
  function LivenessOf(lens: Lens, e: Entity): Liveness {
    LivenessAt(e.lastSeen, lens.now,
               TtlOf(e.kv, "ttl_stale_s").UnwrapOr(lens.staleS),
               TtlOf(e.kv, "ttl_dead_s").UnwrapOr(lens.deadS))
  }

  lemma AgeMonotone(seen: Stamp, now: Stamp, later: Stamp)
    requires now.nanos <= later.nanos
    ensures AgeSeconds(seen, now) <= AgeSeconds(seen, later)
  {
  }

  /**
   As time advances an entity only moves on from Active to Dream to Stale to Dead, for all TTLs:
   overrides, inverted and non-positive ones included.
   */
  lemma LivenessMonotone(lens: Lens, later: Stamp, e: Entity)
    requires lens.now.nanos <= later.nanos
    ensures
      var before, after := LivenessOf(lens, e), LivenessOf(lens.(now := later), e);
      && (before.Dead? ==> after.Dead?)
      && (before.Stale? ==> after.Stale? || after.Dead?)
      && (before.Dream? ==> !after.Active?)
  {
    hide TtlOf, AgeSeconds;
    AgeMonotone(e.lastSeen, lens.now, later);
  }

  /** In nanoseconds: enough time has passed for the whole seconds to reach `ttl`. */
  predicate Reached(seen: Stamp, now: Stamp, ttl: int) {
    var age := now.nanos - seen.nanos;
    if ttl > 0 then age >= ttl * NANOS_PER_SECOND else age > (ttl - 1) * NANOS_PER_SECOND
  }

  /**
   What the whole seconds mean in real time: for a positive TTL the threshold is crossed exactly
   when that many seconds have passed; for zero or less, up to a second before.
   */
  lemma AgeThreshold(seen: Stamp, now: Stamp, ttl: int)
    ensures AgeSeconds(seen, now) >= ttl <==> Reached(seen, now, ttl)
  {
    var age := now.nanos - seen.nanos;
    if age < 0 {
      assert (-age) / NANOS_PER_SECOND * NANOS_PER_SECOND <= -age;
    }
  }

  /** The last second that still counts as active: half of the stale window, and at least one. */
  function ActiveS(staleS: int): int {
    if staleS >= 4 then staleS / 2 else 1
  }

  /**
   The four states in real time, for all TTLs and stamps, future ones included: dead once `deadS` is
   reached, else stale once `staleS` is, else active as long as the second after `ActiveS` is not.
   */
  lemma LivenessInRealTime(seen: Stamp, now: Stamp, staleS: int, deadS: int)
    ensures
      var l := LivenessAt(seen, now, staleS, deadS);
      && (l == Dead <==> Reached(seen, now, deadS))
      && (l == Stale <==> !Reached(seen, now, deadS) && Reached(seen, now, staleS))
      && (l == Active <==>
            !Reached(seen, now, deadS) && !Reached(seen, now, staleS) && !Reached(seen, now, ActiveS(staleS) + 1))
  {
    hide AgeSeconds;
    AgeThreshold(seen, now, deadS);
    AgeThreshold(seen, now, staleS);
    AgeThreshold(seen, now, ActiveS(staleS) + 1);
  }

  /** For ordinary settings: active, quiet, stale and dead follow each other at these instants. */
  lemma OrdinaryLiveness(seen: Stamp, now: Stamp, staleS: int, deadS: int)
    requires 2 <= staleS <= deadS && seen.nanos <= now.nanos
    ensures
      var age := now.nanos - seen.nanos;
      match LivenessAt(seen, now, staleS, deadS)
      case Active => age < (staleS / 2 + 1) * NANOS_PER_SECOND
      case Dream => (staleS / 2 + 1) * NANOS_PER_SECOND <= age < staleS * NANOS_PER_SECOND
      case Stale => staleS * NANOS_PER_SECOND <= age < deadS * NANOS_PER_SECOND
      case Dead => deadS * NANOS_PER_SECOND <= age
  {
    hide AgeSeconds;
    LivenessInRealTime(seen, now, staleS, deadS);
  }
}

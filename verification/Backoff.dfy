/**
 Reconnect delays: `watch_one` of crates/hawkd/src/grpc_health.rs and `watch_one_unit` with
 `watch_one_unit_once` of crates/hawkd/src/systemd.rs. The loops run for ever; here they run over
 any finite trace of rounds and return the delay slept after each.
 */
module Backoff {
  const BASE_MS: nat := 250
  const MAX_MS: nat := 15_000

  function Min(a: nat, b: nat): nat {
    if a < b then a else b
  }

  function Pow2(n: nat): nat {
    if n == 0 then 1 else 2 * Pow2(n - 1)
  }

  /** `base` doubled `k` times, capped. */
  function Doubled(base: nat, k: nat): nat {
    Min(base * Pow2(k), MAX_MS)
  }

  /** Doubling the capped value and capping again is doubling once more before the cap. */
  lemma DoubledStep(base: nat, k: nat)
    ensures Min(Doubled(base, k) * 2, MAX_MS) == Doubled(base, k + 1)
  {
    assert base * Pow2(k + 1) == (base * Pow2(k)) * 2;
  }

  // ----- gRPC

  /** One round: no channel, a channel but no watch, or a watch whose stream ended. */
  datatype Round = ConnectFailed | WatchFailed | StreamEnded

  /** How many rounds right before round `i` failed to connect. */
  function Streak(rounds: seq<Round>, i: nat): (k: nat)
    requires i <= |rounds|
    ensures k <= i
  {
    if i == 0 || !rounds[i - 1].ConnectFailed? then 0 else 1 + Streak(rounds, i - 1)
  }

  /** The delay in closed form: what the trace alone says. */
  function DelayAfter(rounds: seq<Round>, i: nat): nat
    requires i < |rounds|
  {
    var k := Streak(rounds, i);
    if !rounds[i].ConnectFailed? then BASE_MS
    else if k == i then Doubled(BASE_MS, k)
    else Doubled(2 * BASE_MS, k)
  }

  /** The value of `backoff_ms` on entry to round `i`. */
  ghost predicate BackoffAt(rounds: seq<Round>, i: nat, backoff: nat)
    requires i <= |rounds|
  {
    var k := Streak(rounds, i);
    backoff == if k == i then Doubled(BASE_MS, k) else Doubled(2 * BASE_MS, k)
  }

  /** `watch_one`. */
  method WatchOne(rounds: seq<Round>) returns (sleeps: seq<nat>)
    ensures |sleeps| == |rounds|
    ensures forall i :: 0 <= i < |rounds| ==> sleeps[i] == DelayAfter(rounds, i)
  {
    hide Doubled;
    var backoffMs := BASE_MS;
    sleeps := [];
    DoubledZero();
    for i := 0 to |rounds|
      invariant |sleeps| == i
      invariant BackoffAt(rounds, i, backoffMs)
      invariant forall j :: 0 <= j < i ==> sleeps[j] == DelayAfter(rounds, j)
    {
      DoubledStep(BASE_MS, Streak(rounds, i));
      DoubledStep(2 * BASE_MS, Streak(rounds, i));
      match rounds[i] {
        case ConnectFailed =>
          sleeps := sleeps + [backoffMs];
          backoffMs := Min(backoffMs * 2, MAX_MS);
        case WatchFailed =>
          backoffMs := 250;
          sleeps := sleeps + [backoffMs];
          backoffMs := Min(backoffMs * 2, MAX_MS);
        case StreamEnded =>
          backoffMs := 250;
          sleeps := sleeps + [backoffMs];
          backoffMs := Min(backoffMs * 2, MAX_MS);
      }
    }
  }

  lemma DoubledZero()
    ensures Doubled(BASE_MS, 0) == BASE_MS && Doubled(2 * BASE_MS, 0) == 2 * BASE_MS
  {
  }

  /** No delay is ever shorter than the base or longer than the cap, and six doublings reach it. */
  lemma {:induction false} DelayBounds(base: nat, k: nat)
    requires 250 <= base <= 15_000
    ensures 250 <= Doubled(base, k) <= 15_000
    ensures k >= 6 ==> Doubled(base, k) == 15_000
  {
    if k > 6 {
      DelayBounds(base, k - 1);
      DoubledStep(base, k - 1);
    } else {
      assert Pow2(6) == 64;
      if k > 0 {
        DelayBounds(base, k - 1);
        DoubledStep(base, k - 1);
      }
    }
  }

  // ----- systemd

  /**
   What the bus does in one watch, in order: the set-up calls, the first snapshot, the subscription,
   one snapshot per signal.
   */
  datatype Bus = Bus(setup: seq<bool>, first: bool, subscribed: bool, signals: seq<bool>)

  /** `watch_one_unit_once`: it can only end in an error, and this many snapshots were sent by then. */
  method WatchUnitOnce(bus: Bus) returns (ok: bool, snapshots: nat)
    ensures !ok
    ensures snapshots == 0 <==> false in bus.setup || !bus.first
    ensures snapshots > 0 && !bus.subscribed ==> snapshots == 1
    ensures snapshots > 0 && bus.subscribed ==>
      var n := snapshots - 1;
      n <= |bus.signals| && false !in bus.signals[..n] && (n < |bus.signals| ==> !bus.signals[n])
  {
    snapshots := 0;
    for i := 0 to |bus.setup|
      invariant false !in bus.setup[..i]
    {
      if !bus.setup[i] {
        return false, 0;
      }
    }
    assert bus.setup[..|bus.setup|] == bus.setup;
    if !bus.first {
      return false, 0;
    }
    snapshots := 1;
    if !bus.subscribed {
      return false, snapshots;
    }
    for i := 0 to |bus.signals|
      invariant snapshots == 1 + i && false !in bus.signals[..i]
    {
      if !bus.signals[i] {
        return false, snapshots;
      }
      snapshots := snapshots + 1;
    }
    ok := false;
  }

  /** How many rounds right before round `i` ended in an error. */
  function ErrorStreak(oks: seq<bool>, i: nat): (k: nat)
    requires i <= |oks|
    ensures k <= i
  {
    if i == 0 || oks[i - 1] then 0 else 1 + ErrorStreak(oks, i - 1)
  }

  /** The retry loop of `watch_one_unit` for any results: each success starts the doubling afresh. */
  method RetryLoop(oks: seq<bool>) returns (sleeps: seq<nat>)
    ensures |sleeps| == |oks|
    ensures forall i :: 0 <= i < |oks| ==> sleeps[i] == if oks[i] then BASE_MS else Doubled(BASE_MS, ErrorStreak(oks, i))
  {
    hide Doubled;
    var backoffMs := BASE_MS;
    sleeps := [];
    DoubledZero();
    for i := 0 to |oks|
      invariant |sleeps| == i
      invariant backoffMs == Doubled(BASE_MS, ErrorStreak(oks, i))
      invariant forall j :: 0 <= j < i ==>
        sleeps[j] == if oks[j] then BASE_MS else Doubled(BASE_MS, ErrorStreak(oks, j))
    {
      DoubledStep(BASE_MS, ErrorStreak(oks, i));
      if oks[i] {
        backoffMs := 250;
        sleeps := sleeps + [backoffMs];
      } else {
        sleeps := sleeps + [backoffMs];
        backoffMs := Min(backoffMs * 2, MAX_MS);
      }
    }
  }

  lemma {:induction false} AllErrors(oks: seq<bool>, i: nat)
    requires i <= |oks| && forall j :: 0 <= j < i ==> !oks[j]
    ensures ErrorStreak(oks, i) == i
  {
    if i > 0 {
      AllErrors(oks, i - 1);
    }
  }

  /** `watch_one_unit`: no watch succeeds, so the n-th retry always waits 250·2^n ms, capped. */
  method WatchOneUnit(rounds: seq<Bus>) returns (sleeps: seq<nat>)
    ensures |sleeps| == |rounds|
    ensures forall n :: 0 <= n < |rounds| ==> sleeps[n] == Doubled(BASE_MS, n)
  {
    hide Doubled;
    var oks: seq<bool> := [];
    for n := 0 to |rounds|
      invariant |oks| == n && forall j :: 0 <= j < n ==> !oks[j]
    {
      var ok, snapshots := WatchUnitOnce(rounds[n]);
      oks := oks + [ok];
    }
    sleeps := RetryLoop(oks);
    forall n | 0 <= n < |rounds| ensures sleeps[n] == Doubled(BASE_MS, n) {
      AllErrors(oks, n);
    }
  }
}

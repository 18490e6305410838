/** How long the renewal loop (apps/agent-host/src/lease-heartbeat.ts) keeps its lease: ticks every
    15 s, each attempt taking as long as it takes, against a lease of 45 s
    (packages/controller-lease/src/index.ts). */
module LeaseTiming {
  import opened Wrappers
  import opened Lease

  const HEARTBEAT_INTERVAL_MS := 15000

  /** What the attempt of a tick would come to: it ends `delay` after the tick, and renews the lease
      then, with the clock reading of the tick, or fails for a transient reason. */
  datatype Tick = Tick(renews: bool, delay: nat)

  /** The instant of tick `k`; the renewal all is counted from is at 0, and `ticks[0]` is tick 1. */
  function At(k: nat): Instant {
    k * HEARTBEAT_INTERVAL_MS
  }

  /** When the attempt of tick `k` or of an earlier one that is still under way then ends.  A tick that
      fires during an attempt does nothing. */
  function BusyUntil(ticks: seq<Tick>, k: nat): Instant
    requires k <= |ticks|
  {
    if k == 0 then 0
    else if At(k) < BusyUntil(ticks, k - 1) then BusyUntil(ticks, k - 1)
    else At(k) + ticks[k - 1].delay
  }

  /** Tick `k` makes an attempt of its own, and it renews the lease. */
  predicate Renews(ticks: seq<Tick>, k: nat)
    requires k <= |ticks|
  {
    k > 0 && BusyUntil(ticks, k - 1) <= At(k) && ticks[k - 1].renews
  }

  /** When the renewal of tick `k` is written. */
  function Lands(ticks: seq<Tick>, k: nat): Instant
    requires k <= |ticks|
  {
    if k == 0 then 0 else At(k) + ticks[k - 1].delay
  }

  /** The last tick up to `k` that renews, or 0. */
  function LastRenewal(ticks: seq<Tick>, k: nat): (m: nat)
    requires k <= |ticks|
    ensures m <= k
  {
    if k == 0 || Renews(ticks, k) then k else LastRenewal(ticks, k - 1)
  }

  /** The row once all attempts up to tick `k` have ended, with no other controller about. */
  function RowAfter(c: Controller, u: string, ticks: seq<Tick>, k: nat): (row: Row)
    requires k <= |ticks|
    ensures Owns(row, c)
  {
    if k == 0 then Some(Fresh(c, u, 0))
    else
      var before := RowAfter(c, u, ticks, k - 1);
      if Renews(ticks, k) then Extend(before, c, At(k)) else before
  }

  /** The row at instant `x`, of the ticks up to `k`: the last renewal may not have landed yet. */
  function RowUpTo(c: Controller, u: string, ticks: seq<Tick>, k: nat, x: nat): Row
    requires k <= |ticks|
  {
    var m := LastRenewal(ticks, k);
    if m > 0 && x < Lands(ticks, m) then RowAfter(c, u, ticks, m - 1) else RowAfter(c, u, ticks, m)
  }

  function RowAt(c: Controller, u: string, ticks: seq<Tick>, x: nat): Row {
    var k := x / HEARTBEAT_INTERVAL_MS;
    RowUpTo(c, u, ticks, if k < |ticks| then k else |ticks|, x)
  }

  /** The lease is unexpired at every instant up to the tick after the last one. */
  ghost predicate NeverExpires(c: Controller, u: string, ticks: seq<Tick>) {
    forall x: nat :: x <= At(|ticks| + 1) ==> Active(RowAt(c, u, ticks, x), x)
  }

  // ---------------------------------------------------------------- the condition on the ticks

  /** If tick `m` renews, it reads the clock within 45 s of the tick of the renewal before it. */
  predicate ReadsInTime(ticks: seq<Tick>, m: nat)
    requires 0 < m <= |ticks|
  {
    Renews(ticks, m) ==> m < LastRenewal(ticks, m - 1) + 3
  }

  /** And it is written within 45 s of that tick, or not within the time looked at. */
  predicate LandsInTime(ticks: seq<Tick>, m: nat)
    requires 0 < m <= |ticks|
  {
    var end := At(LastRenewal(ticks, m - 1) + 3);
    Renews(ticks, m) ==> Lands(ticks, m) <= end || At(|ticks| + 1) < end
  }

  ghost predicate Chained(ticks: seq<Tick>, k: nat)
    requires k <= |ticks|
  {
    forall m: nat :: 0 < m <= k ==> ReadsInTime(ticks, m)
  }

  /** Every renewal reads and lands in time, and the last is not too long ago at the end. */
  ghost predicate InTime(ticks: seq<Tick>) {
    && Chained(ticks, |ticks|)
    && (forall m: nat :: 0 < m <= |ticks| ==> LandsInTime(ticks, m))
    && |ticks| + 1 < LastRenewal(ticks, |ticks|) + 3
  }

  // ---------------------------------------------------------------- proofs

  lemma {:induction false} LastRenewalRenews(ticks: seq<Tick>, k: nat)
    requires k <= |ticks|
    ensures LastRenewal(ticks, k) == 0 || Renews(ticks, LastRenewal(ticks, k))
  {
    if k > 0 && !Renews(ticks, k) {
      LastRenewalRenews(ticks, k - 1);
    }
  }

  lemma {:induction false} SameAsLastRenewal(c: Controller, u: string, ticks: seq<Tick>, k: nat)
    requires k <= |ticks|
    ensures RowAfter(c, u, ticks, k) == RowAfter(c, u, ticks, LastRenewal(ticks, k))
    ensures LastRenewal(ticks, LastRenewal(ticks, k)) == LastRenewal(ticks, k)
  {
    if k > 0 && !Renews(ticks, k) {
      SameAsLastRenewal(c, u, ticks, k - 1);
    }
  }

  lemma {:induction false} ExpiryBound(c: Controller, u: string, ticks: seq<Tick>, k: nat)
    requires k <= |ticks|
    ensures RowAfter(c, u, ticks, k).value.expiresAt <= At(LastRenewal(ticks, k) + 3)
  {
    if k > 0 {
      ExpiryBound(c, u, ticks, k - 1);
    }
  }

  /** As long as the renewals are chained, all succeed, and the lease ends 45 s after the last one's tick. */
  lemma {:induction false} ChainedExpiry(c: Controller, u: string, ticks: seq<Tick>, k: nat)
    requires k <= |ticks| && Chained(ticks, k)
    ensures RowAfter(c, u, ticks, k).value.expiresAt == At(LastRenewal(ticks, k) + 3)
  {
    if k > 0 {
      ChainedExpiry(c, u, ticks, k - 1);
      assert ReadsInTime(ticks, k);
    }
  }

  /** While an attempt is under way no later tick renews. */
  lemma {:induction false} BusyRenewsNothing(ticks: seq<Tick>, m: nat, k: nat)
    requires 0 < m <= k <= |ticks| && Renews(ticks, m) && At(k) < Lands(ticks, m)
    ensures BusyUntil(ticks, k) == Lands(ticks, m) && LastRenewal(ticks, k) == m
  {
    if m < k {
      BusyRenewsNothing(ticks, m, k - 1);
    }
  }

  /** The row at a tick that renews, as it reads the clock. */
  lemma NeverExpiresChains(c: Controller, u: string, ticks: seq<Tick>, m: nat)
    requires NeverExpires(c, u, ticks) && 0 < m <= |ticks| && Renews(ticks, m)
    requires RowAfter(c, u, ticks, m - 1).value.expiresAt == At(LastRenewal(ticks, m - 1) + 3)
    ensures m < LastRenewal(ticks, m - 1) + 3
  {
    assert At(m) / HEARTBEAT_INTERVAL_MS == m;
    assert Active(RowAt(c, u, ticks, At(m)), At(m));
  }

  lemma {:induction false} NeverExpiresIsChained(c: Controller, u: string, ticks: seq<Tick>, k: nat)
    requires NeverExpires(c, u, ticks) && k <= |ticks|
    ensures Chained(ticks, k)
  {
    if k > 0 {
      NeverExpiresIsChained(c, u, ticks, k - 1);
      ChainedExpiry(c, u, ticks, k - 1);
      if Renews(ticks, k) {
        NeverExpiresChains(c, u, ticks, k);
      }
    }
  }

  /** The ticks up to `k` at an instant of the time looked at. */
  lemma TickOf(ticks: seq<Tick>, x: nat) returns (k: nat)
    requires x <= At(|ticks| + 1)
    ensures k == if x / HEARTBEAT_INTERVAL_MS < |ticks| then x / HEARTBEAT_INTERVAL_MS else |ticks|
    ensures At(k) <= x && (k < |ticks| ==> x < At(k + 1))
  {
    k := if x / HEARTBEAT_INTERVAL_MS < |ticks| then x / HEARTBEAT_INTERVAL_MS else |ticks|;
  }

  /** If renewal `m` is not written in time, the lease has expired before it is. */
  lemma LateLandingExpires(c: Controller, u: string, ticks: seq<Tick>, m: nat)
    requires Chained(ticks, |ticks|) && 0 < m <= |ticks| && !LandsInTime(ticks, m)
    ensures !NeverExpires(c, u, ticks)
  {
    var x := At(LastRenewal(ticks, m - 1) + 3);
    var k := TickOf(ticks, x);
    assert ReadsInTime(ticks, m);
    BusyRenewsNothing(ticks, m, k);
    ChainedExpiry(c, u, ticks, m - 1);
    assert !Active(RowAt(c, u, ticks, x), x);
  }

  lemma RowUpToBound(c: Controller, u: string, ticks: seq<Tick>, k: nat, x: nat)
    requires k <= |ticks|
    ensures var row := RowUpTo(c, u, ticks, k, x);
            row.Some? && row.value.expiresAt <= At(LastRenewal(ticks, k) + 3)
  {
    var m := LastRenewal(ticks, k);
    SameAsLastRenewal(c, u, ticks, k);
    ExpiryBound(c, u, ticks, m);
    if m > 0 {
      ExpiryBound(c, u, ticks, m - 1);
    }
  }

  /** If the last renewal is too long ago at the end, the lease has expired by then. */
  lemma LateEndExpires(c: Controller, u: string, ticks: seq<Tick>)
    requires |ticks| + 1 >= LastRenewal(ticks, |ticks|) + 3
    ensures !NeverExpires(c, u, ticks)
  {
    var x := At(LastRenewal(ticks, |ticks|) + 3);
    var k := TickOf(ticks, x);
    LastRenewalWithin(ticks, k, |ticks|);
    RowUpToBound(c, u, ticks, k, x);
    assert !Active(RowAt(c, u, ticks, x), x);
  }

  lemma {:induction false} LastRenewalWithin(ticks: seq<Tick>, k: nat, n: nat)
    requires k <= n <= |ticks| && LastRenewal(ticks, n) <= k
    ensures LastRenewal(ticks, k) == LastRenewal(ticks, n)
  {
    if k < n {
      LastRenewalWithin(ticks, k, n - 1);
    }
  }

  /** The renewal after the last one up to `k`, or none. */
  lemma {:induction false} NextRenewal(ticks: seq<Tick>, k: nat, n: nat) returns (next: nat)
    requires k <= n <= |ticks| && LastRenewal(ticks, n) != LastRenewal(ticks, k)
    ensures k < next <= n && Renews(ticks, next) && LastRenewal(ticks, next - 1) == LastRenewal(ticks, k)
    decreases n
  {
    if LastRenewal(ticks, n - 1) == LastRenewal(ticks, k) {
      next := n;
    } else {
      next := NextRenewal(ticks, k, n - 1);
    }
  }

  lemma InTimeAt(c: Controller, u: string, ticks: seq<Tick>, x: nat)
    requires InTime(ticks) && x <= At(|ticks| + 1)
    ensures Active(RowAt(c, u, ticks, x), x)
  {
    var k := TickOf(ticks, x);
    var m := LastRenewal(ticks, k);
    LastRenewalRenews(ticks, k);
    if m > 0 && x < Lands(ticks, m) {
      assert LandsInTime(ticks, m);
      ChainedExpiry(c, u, ticks, m - 1);
    } else {
      ChainedExpiry(c, u, ticks, m);
      SameAsLastRenewal(c, u, ticks, k);
      if LastRenewal(ticks, |ticks|) != m {
        var next := NextRenewal(ticks, k, |ticks|);
        assert ReadsInTime(ticks, next);
      }
    }
  }

  /** The loop keeps its lease unexpired at every instant exactly when every renewal reads the clock and
      is written within 45 s of the tick of the one before, and the last is not too long ago at the end:
      whatever attempts fail, however long each takes, and whichever ticks it suppresses. */
  lemma LeaseHoldsIffInTime(c: Controller, u: string, ticks: seq<Tick>)
    ensures NeverExpires(c, u, ticks) <==> InTime(ticks)
  {
    if InTime(ticks) {
      forall x: nat | x <= At(|ticks| + 1) ensures Active(RowAt(c, u, ticks, x), x) {
        InTimeAt(c, u, ticks, x);
      }
    } else if NeverExpires(c, u, ticks) {
      NeverExpiresIsChained(c, u, ticks, |ticks|);
      if |ticks| + 1 >= LastRenewal(ticks, |ticks|) + 3 {
        LateEndExpires(c, u, ticks);
      } else {
        var m: nat :| 0 < m <= |ticks| && !LandsInTime(ticks, m);
        LateLandingExpires(c, u, ticks, m);
      }
    }
  }

  // ---------------------------------------------------------------- attempts shorter than an interval

  /** Every attempt ends before the next tick. */
  predicate Prompt(ticks: seq<Tick>) {
    forall k :: 0 <= k < |ticks| ==> ticks[k].delay < HEARTBEAT_INTERVAL_MS
  }

  predicate NoTwoMisses(ticks: seq<Tick>) {
    forall k :: 0 < k < |ticks| ==> ticks[k - 1].renews || ticks[k].renews
  }

  lemma {:induction false} PromptNeverBusy(ticks: seq<Tick>, k: nat)
    requires Prompt(ticks) && k <= |ticks|
    ensures BusyUntil(ticks, k) < At(k + 1)
    ensures k > 0 ==> (Renews(ticks, k) <==> ticks[k - 1].renews)
  {
    if k > 0 {
      PromptNeverBusy(ticks, k - 1);
    }
  }

  lemma RecentRenewal(ticks: seq<Tick>, k: nat)
    requires Prompt(ticks) && NoTwoMisses(ticks) && k <= |ticks|
    ensures k < LastRenewal(ticks, k) + 2
  {
    if k > 1 {
      PromptNeverBusy(ticks, k);
      PromptNeverBusy(ticks, k - 1);
      assert ticks[k - 2].renews || ticks[k - 1].renews;
    }
  }

  /** Two ticks in a row that do not renew: the one after them is exactly at the expiry or later, and is
      refused as expired. */
  lemma TwoMissesExpire(c: Controller, u: string, ticks: seq<Tick>, k: nat)
    requires 0 < k < |ticks| && !Renews(ticks, k) && !Renews(ticks, k + 1)
    ensures RowAfter(c, u, ticks, k + 1).value.expiresAt <= At(k + 2)
    ensures !Extendable(RowAfter(c, u, ticks, k + 1), c, At(k + 2))
    ensures Classify(RowAfter(c, u, ticks, k + 1), c, At(k + 2)) == Expired
    ensures !Active(RowAt(c, u, ticks, At(k + 2)), At(k + 2))
  {
    ExpiryBound(c, u, ticks, k + 1);
    assert LastRenewal(ticks, k + 1) == LastRenewal(ticks, k) == LastRenewal(ticks, k - 1);
    assert At(k + 2) / HEARTBEAT_INTERVAL_MS == k + 2;
    if k + 2 > |ticks| || !Renews(ticks, k + 2) {
      RowUpToBound(c, u, ticks, if k + 2 < |ticks| then k + 2 else |ticks|, At(k + 2));
    }
  }

  lemma PromptInTimeIff(ticks: seq<Tick>)
    requires Prompt(ticks)
    ensures InTime(ticks) <==> NoTwoMisses(ticks)
  {
    if NoTwoMisses(ticks) {
      RecentRenewal(ticks, |ticks|);
      forall m: nat | 0 < m <= |ticks| ensures ReadsInTime(ticks, m) && LandsInTime(ticks, m) {
        RecentRenewal(ticks, m - 1);
      }
    } else {
      var k: nat :| 0 < k < |ticks| && !ticks[k - 1].renews && !ticks[k].renews;
      var last := LastRenewal(ticks, k + 1);
      PromptNeverBusy(ticks, k);
      PromptNeverBusy(ticks, k + 1);
      assert last == LastRenewal(ticks, k) == LastRenewal(ticks, k - 1);
      if LastRenewal(ticks, |ticks|) != last {
        var next := NextRenewal(ticks, k + 1, |ticks|);
        assert next >= last + 3 && !ReadsInTime(ticks, next);
      }
    }
  }

  /** When every attempt ends before the next tick, the lease holds exactly when no two consecutive ticks miss. */
  lemma LeaseHoldsIffNoTwoMisses(c: Controller, u: string, ticks: seq<Tick>)
    requires Prompt(ticks)
    ensures NeverExpires(c, u, ticks) <==> NoTwoMisses(ticks)
  {
    LeaseHoldsIffInTime(c, u, ticks);
    PromptInTimeIff(ticks);
  }
}

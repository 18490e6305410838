/** The ticks that `LeaseTiming` speaks of are those of the renewal loop
    (apps/agent-host/src/lease-heartbeat.ts) against the lease's row: driving the loop of `LeaseRenewal`
    by its timer starts the same attempts and leaves the same row at every instant. */
module LeaseTicks {
  import opened Wrappers
  import opened Lease
  import opened LeaseTiming
  import Loop = LeaseRenewal

  /** The heartbeat under way: when it was sent, which is the clock it read, when its answer comes, and
      whether it renews. */
  datatype Attempt = Attempt(sent: Instant, due: Instant, renews: bool)

  /** The loop, the row as it is stored, and the heartbeat under way. */
  datatype Host = Host(loop: Loop.Loop, row: Row, attempt: Option<Attempt>)

  /** What the row will be once the heartbeat under way has done what it does. */
  function Landed(c: Controller, h: Host): Row {
    if h.attempt.Some? && h.attempt.value.renews then Extend(h.row, c, h.attempt.value.sent) else h.row
  }

  /** The answer comes, if it is due by `x`. */
  function AnsweredBy(c: Controller, h: Host, x: Instant): Host {
    if h.attempt.None? || x < h.attempt.value.due then h
    else
      var renewal := if h.attempt.value.renews then Loop.Renewed else Loop.Transient;
      Host(Loop.Next(h.loop, Loop.Answered(renewal)), Landed(c, h), None)
  }

  /** The timer fires at `x`: a heartbeat is sent if the loop goes on to await one. */
  function FiredAt(h: Host, x: Instant, tick: Tick): Host {
    var loop := Loop.Next(h.loop, Loop.Fired(false));
    if h.loop.phase.NoTick? && loop.phase.Beating? then Host(loop, h.row, Some(Attempt(x, x + tick.delay, tick.renews)))
    else h.(loop := loop)
  }

  /** The host right after tick `k`. */
  function AfterTick(c: Controller, u: string, ticks: seq<Tick>, k: nat): Host
    requires k <= |ticks|
  {
    if k == 0 then Host(Loop.Loop(true, false, Loop.NoTick, Loop.Ready), Some(Fresh(c, u, 0)), None)
    else FiredAt(AnsweredBy(c, AfterTick(c, u, ticks, k - 1), At(k)), At(k), ticks[k - 1])
  }

  /** The attempt under way after tick `k` is that of tick `t`, the last that found the loop idle. */
  ghost predicate Underway(ticks: seq<Tick>, k: nat, t: nat, h: Host)
    requires k <= |ticks|
  {
    && 0 < t <= k && h.loop.phase.Beating?
    && h.attempt == Some(Attempt(At(t), At(t) + ticks[t - 1].delay, ticks[t - 1].renews))
    && BusyUntil(ticks, k) == At(t) + ticks[t - 1].delay && BusyUntil(ticks, t - 1) <= At(t)
    && (forall m :: t < m <= k ==> !Renews(ticks, m))
  }

  ghost predicate HostOk(c: Controller, u: string, ticks: seq<Tick>, k: nat, h: Host)
    requires k <= |ticks|
  {
    && !h.loop.stopped && Landed(c, h) == RowAfter(c, u, ticks, k)
    && if k == 0 then h.loop.phase.NoTick? && h.attempt.None? && h.row == RowAfter(c, u, ticks, 0)
       else exists t: nat :: Underway(ticks, k, t, h) && h.row == RowAfter(c, u, ticks, t - 1)
  }

  lemma {:induction false} HostAlwaysOk(c: Controller, u: string, ticks: seq<Tick>, k: nat)
    requires k <= |ticks|
    ensures HostOk(c, u, ticks, k, AfterTick(c, u, ticks, k))
  {
    if k > 0 {
      HostAlwaysOk(c, u, ticks, k - 1);
      var before, now := AfterTick(c, u, ticks, k - 1), AfterTick(c, u, ticks, k);
      if BusyUntil(ticks, k - 1) <= At(k) {
        assert Underway(ticks, k, k, now);
      } else {
        var t: nat :| Underway(ticks, k - 1, t, before) && before.row == RowAfter(c, u, ticks, t - 1);
        assert Underway(ticks, k, t, now);
      }
    }
  }

  /** A tick starts a heartbeat exactly when no earlier one is still under way by then, as `BusyUntil` counts;
      and once all have ended the row is the one `RowAfter` says. */
  lemma TicksDriveTheLoop(c: Controller, u: string, ticks: seq<Tick>, k: nat)
    requires 0 < k <= |ticks|
    ensures AnsweredBy(c, AfterTick(c, u, ticks, k - 1), At(k)).loop.phase.NoTick? <==> BusyUntil(ticks, k - 1) <= At(k)
    ensures AfterTick(c, u, ticks, k).loop.phase.Beating?
    ensures Landed(c, AfterTick(c, u, ticks, k)) == RowAfter(c, u, ticks, k)
  {
    HostAlwaysOk(c, u, ticks, k - 1);
    HostAlwaysOk(c, u, ticks, k);
  }

  /** Renewals before the attempt under way have landed by its tick. */
  lemma {:induction false} LandedBefore(ticks: seq<Tick>, t: nat, m: nat)
    requires m <= t <= |ticks| && Renews(ticks, m)
    ensures m < t && BusyUntil(ticks, t - 1) <= At(t) ==> Lands(ticks, m) <= At(t)
    ensures Lands(ticks, m) <= BusyUntil(ticks, t)
    decreases t - m
  {
    if m < t {
      LandedBefore(ticks, t - 1, m);
    }
  }

  lemma {:induction false} LastRenewalIs(ticks: seq<Tick>, k: nat, t: nat)
    requires t <= k <= |ticks| && forall m :: t < m <= k ==> !Renews(ticks, m)
    ensures LastRenewal(ticks, k) == LastRenewal(ticks, t)
  {
    if t < k {
      LastRenewalIs(ticks, k - 1, t);
    }
  }

  /** At every instant from tick `k` to the next the row is the one `RowAt` says. */
  lemma RowIsTheHosts(c: Controller, u: string, ticks: seq<Tick>, k: nat, x: nat)
    requires k <= |ticks| && At(k) <= x && (k < |ticks| ==> x < At(k + 1))
    ensures RowAt(c, u, ticks, x) == AnsweredBy(c, AfterTick(c, u, ticks, k), x).row
  {
    var h := AfterTick(c, u, ticks, k);
    HostAlwaysOk(c, u, ticks, k);
    assert k < |ticks| ==> x / HEARTBEAT_INTERVAL_MS == k;
    assert k == |ticks| ==> x / HEARTBEAT_INTERVAL_MS >= k;
    if k > 0 {
      var t: nat :| Underway(ticks, k, t, h) && h.row == RowAfter(c, u, ticks, t - 1);
      LastRenewalIs(ticks, k, t);
      var m := LastRenewal(ticks, t);
      LastRenewalRenews(ticks, t);
      SameAsLastRenewal(c, u, ticks, t);
      SameAsLastRenewal(c, u, ticks, k);
      if 0 < m < t {
        LandedBefore(ticks, t, m);
      }
    }
  }
}

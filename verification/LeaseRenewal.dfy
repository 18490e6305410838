/** The lease renewal loop (apps/agent-host/src/lease-heartbeat.ts) as
    apps/agent-host/src/composition.ts wires it: what it does to the host's health. */
module LeaseRenewal {
  import opened Wrappers
  import opened Lease

  // ---------------------------------------------------------------- health

  datatype Health = Restoring | Ready | RestoreFailed

  /** `Transient` is any failure that is not one of the three typed lease errors. */
  datatype Renewal = Renewed | Lost(error: LeaseError) | Transient

  datatype Event =
    | Started
    | Stopped
    | Fired(runtimeStopped: bool)               // the timer
    | Answered(renewal: Renewal)                // the heartbeat of the tick under way
    | Reacquired(ok: bool, runtimeReady: bool)  // the acquire that follows a lost renewal

  /** Where the tick under way is suspended. */
  datatype Phase = NoTick | Beating | Reacquiring

  datatype Loop = Loop(running: bool, stopped: bool, phase: Phase, health: Health)

  function Next(l: Loop, e: Event): Loop {
    match e
    case Started => if l.running then l else l.(running := true, stopped := false)
    case Stopped => l.(running := false, stopped := true)
    case Fired(runtimeStopped) =>
      if l.stopped || !l.phase.NoTick? then l
      else if runtimeStopped then l.(running := false, stopped := true)
      else l.(phase := Beating)
    case Answered(renewal) =>
      if !l.phase.Beating? then l
      else if renewal.Lost? then l.(health := RestoreFailed, phase := Reacquiring)
      else l.(phase := NoTick)
    case Reacquired(ok, runtimeReady) =>
      if !l.phase.Reacquiring? then l
      else l.(health := if ok && runtimeReady then Ready else l.health, phase := NoTick)
  }

  function After(l: Loop, events: seq<Event>): Loop {
    if events == [] then l else Next(After(l, events[..|events| - 1]), events[|events| - 1])
  }

  class LeaseHeartbeatLoop {
    var running: bool
    var stopped: bool
    var phase: Phase
    var health: Health

    function Abstract(): Loop
      reads this
    {
      Loop(running, stopped, phase, health)
    }

    constructor (health: Health)
      ensures Abstract() == Loop(false, false, NoTick, health)
    {
      running, stopped, phase := false, false, NoTick;
      this.health := health;
    }

    method Start()
      modifies this
      ensures Abstract() == Next(old(Abstract()), Started)
      ensures running && stopped == (old(running) && old(stopped)) && phase == old(phase) && health == old(health)
    {
      if running {
        return;
      }
      stopped := false;
      running := true;
    }

    method Stop()
      modifies this
      ensures Abstract() == Next(old(Abstract()), Stopped)
      ensures stopped && !running && phase == old(phase) && health == old(health)
    {
      stopped := true;
      running := false;
    }

    /** `tick` up to the heartbeat it awaits: one starts exactly if the loop is not stopped, none is under
        way and the runtime is not stopped; a stopped runtime stops an idle loop. */
    method Fire(runtimeStopped: bool) returns (beats: bool)
      modifies this
      ensures Abstract() == Next(old(Abstract()), Fired(runtimeStopped))
      ensures beats <==> !old(stopped) && old(phase.NoTick?) && !runtimeStopped
      ensures beats ==> phase.Beating? && running == old(running) && !stopped
      ensures !beats ==> phase == old(phase)
      ensures !old(stopped) && old(phase.NoTick?) && runtimeStopped ==> stopped && !running
      ensures old(stopped) || !old(phase.NoTick?) ==> stopped == old(stopped) && running == old(running)
      ensures health == old(health)
    {
      if stopped || !phase.NoTick? {
        return false;
      }
      if runtimeStopped {
        Stop();
        return false;
      }
      phase := Beating;
      beats := true;
    }

    /** From the heartbeat's answer to the end of the tick, or to the acquire it awaits. */
    method Answer(renewal: Renewal) returns (reacquires: bool)
      requires phase.Beating?
      modifies this
      ensures Abstract() == Next(old(Abstract()), Answered(renewal))
      ensures reacquires <==> renewal.Lost?
      ensures reacquires ==> phase.Reacquiring? && health == RestoreFailed
      ensures !reacquires ==> phase.NoTick? && health == old(health)
      ensures stopped == old(stopped) && running == old(running)
    {
      if renewal.Lost? {
        health := RestoreFailed;
        phase := Reacquiring;
        return true;
      }
      phase := NoTick;
      reacquires := false;
    }

    method Reacquire(ok: bool, runtimeReady: bool)
      requires phase.Reacquiring?
      modifies this
      ensures Abstract() == Next(old(Abstract()), Reacquired(ok, runtimeReady))
      ensures phase.NoTick? && health == if ok && runtimeReady then Ready else old(health)
      ensures stopped == old(stopped) && running == old(running)
    {
      if ok && runtimeReady {
        health := Ready;
      }
      phase := NoTick;
    }
  }

  /** In `events`, event `i` is the answer that loses the lease of the tick under way. */
  predicate LosesAt(l: Loop, events: seq<Event>, i: nat) {
    && i < |events|
    && events[i].Answered? && events[i].renewal.Lost? && After(l, events[..i]).phase.Beating?
  }

  /** Event `i` is the re-acquire of such a tick, it succeeds, and the runtime is READY. */
  predicate RegainsAt(l: Loop, events: seq<Event>, i: nat) {
    && i < |events|
    && events[i].Reacquired? && events[i].ok && events[i].runtimeReady && After(l, events[..i]).phase.Reacquiring?
  }

  lemma AfterPrefix(l: Loop, events: seq<Event>, i: nat)
    requires i < |events|
    ensures After(l, events[..i + 1]) == Next(After(l, events[..i]), events[i])
  {
    assert events[..i + 1][..i] == events[..i];
  }

  lemma {:induction false} NeverStopped(l: Loop, events: seq<Event>)
    requires !l.stopped && forall j :: 0 <= j < |events| ==> events[j] != Stopped && events[j] != Fired(true)
    ensures !After(l, events).stopped
  {
    if events != [] {
      NeverStopped(l, events[..|events| - 1]);
    }
  }

  /** Until it is stopped, or finds the runtime stopped, the loop starts a heartbeat at every tick that
      finds none under way, and that heartbeat's answer, if it is a loss, is followed by a re-acquire. */
  lemma EveryIdleTickBeats(l: Loop, events: seq<Event>, i: nat)
    requires !l.stopped && i < |events|
    requires forall j :: 0 <= j < i ==> events[j] != Stopped && events[j] != Fired(true)
    requires After(l, events[..i]).phase.NoTick? && events[i] == Fired(false)
    ensures After(l, events[..i + 1]) == After(l, events[..i]).(phase := Beating)
    ensures i + 1 < |events| && events[i + 1].Answered? ==>
              After(l, events[..i + 2]).phase == if events[i + 1].renewal.Lost? then Reacquiring else NoTick
  {
    NeverStopped(l, events[..i]);
    AfterPrefix(l, events, i);
    if i + 1 < |events| {
      AfterPrefix(l, events, i + 1);
    }
  }

  ghost predicate RegainedSince(l: Loop, events: seq<Event>, from: nat, n: nat) {
    exists k: nat :: from < k < n && RegainsAt(l, events, k) && forall m: nat :: k < m < n ==> !LosesAt(l, events, m)
  }

  lemma RegainedSinceStep(l: Loop, events: seq<Event>, from: nat, n: nat)
    requires from < n < |events|
    ensures RegainedSince(l, events, from, n + 1) <==>
              RegainsAt(l, events, n) || (RegainedSince(l, events, from, n) && !LosesAt(l, events, n))
  {
    if RegainedSince(l, events, from, n) && !LosesAt(l, events, n) {
      var k: nat :| from < k < n && RegainsAt(l, events, k) && forall m: nat :: k < m < n ==> !LosesAt(l, events, m);
      assert forall m: nat :: k < m < n + 1 ==> !LosesAt(l, events, m);
    }
  }

  /** After a lost renewal the host reports READY exactly when a re-acquire of its own has succeeded
      since, with the runtime READY at that moment, and no renewal has been lost after it. */
  lemma {:induction false} ReadyAfterLossIff(l: Loop, events: seq<Event>, i: nat, n: nat)
    requires LosesAt(l, events, i) && i < n <= |events|
    ensures After(l, events[..n]).health == Ready <==> RegainedSince(l, events, i, n)
    ensures After(l, events[..n]).health in {Ready, RestoreFailed}
    decreases n
  {
    AfterPrefix(l, events, n - 1);
    if n - 1 > i {
      ReadyAfterLossIff(l, events, i, n - 1);
      RegainedSinceStep(l, events, i, n - 1);
    }
  }

  /** Without a lost renewal the loop leaves the host's health alone. */
  lemma {:induction false} HealthUntouchedUntilLoss(l: Loop, events: seq<Event>, n: nat)
    requires n <= |events| && !l.phase.Reacquiring?
    requires forall i: nat :: i < n ==> !LosesAt(l, events, i)
    ensures After(l, events[..n]).health == l.health && !After(l, events[..n]).phase.Reacquiring?
  {
    if n == 0 {
      assert events[..0] == [];
    } else {
      HealthUntouchedUntilLoss(l, events, n - 1);
      AfterPrefix(l, events, n - 1);
      assert !LosesAt(l, events, n - 1);
    }
  }

  /** Renewals that succeed: no loss, and so no re-acquire. */
  function RenewingTicks(n: nat): seq<Event> {
    if n == 0 then [] else RenewingTicks(n - 1) + [Fired(false), Answered(Renewed)]
  }

  lemma {:induction false} RenewingTicksKeepHealth(l: Loop, n: nat)
    requires l.phase.NoTick? && !l.stopped
    ensures After(l, RenewingTicks(n)) == l
  {
    if n > 0 {
      RenewingTicksKeepHealth(l, n - 1);
      var events := RenewingTicks(n);
      assert events[..|events| - 1][..|events| - 2] == RenewingTicks(n - 1);
      AfterPrefix(l, events, |events| - 2);
      AfterPrefix(l, events, |events| - 1);
      assert events[..|events|] == events;
      assert events[..|events| - 2] == RenewingTicks(n - 1);
    }
  }

  /** A re-acquire that finds the runtime not READY leaves the host failed however often the lease
      is renewed afterwards. */
  lemma RegainedWhileNotReadyStaysFailed(l: Loop, n: nat)
    requires l.phase.Reacquiring? && l.health == RestoreFailed && !l.stopped
    ensures After(Next(l, Reacquired(true, false)), RenewingTicks(n)).health == RestoreFailed
  {
    RenewingTicksKeepHealth(Next(l, Reacquired(true, false)), n);
  }

  /** The first answer among `events`, or their number. */
  function FirstAnswer(events: seq<Event>): (i: nat)
    ensures i <= |events|
    ensures i < |events| ==> events[i].Answered?
    ensures forall j :: 0 <= j < i ==> !events[j].Answered?
  {
    if events == [] then 0
    else
      var i := FirstAnswer(events[..|events| - 1]);
      if i < |events| - 1 || events[|events| - 1].Answered? then i else |events|
  }

  /** The first outcome of a re-acquire at or after `from`, or the number of events. */
  function FirstReacquire(events: seq<Event>, from: nat): (i: nat)
    ensures i <= |events|
    ensures i < |events| ==> from <= i && events[i].Reacquired?
    ensures forall j :: from <= j < i ==> !events[j].Reacquired?
  {
    if events == [] then 0
    else
      var front := |events| - 1;
      var i := FirstReacquire(events[..front], from);
      if i < front || (from <= front && events[front].Reacquired?) then i else |events|
  }

  /** What the first re-acquire from `from` on makes of `health`, with the tick over once it is there. */
  function Reacquires(events: seq<Event>, from: nat, health: Health): (Health, Phase) {
    var i := FirstReacquire(events, from);
    if i == |events| then (health, Reacquiring)
    else (if events[i].ok && events[i].runtimeReady then Ready else health, NoTick)
  }

  /** Health and tick of a stopped loop after `events`, from the first answer and re-acquire alone. */
  function AfterStop(l: Loop, events: seq<Event>): (Health, Phase) {
    match l.phase
    case NoTick => (l.health, NoTick)
    case Reacquiring => Reacquires(events, 0, l.health)
    case Beating =>
      var i := FirstAnswer(events);
      if i == |events| then (l.health, Beating)
      else if !events[i].renewal.Lost? then (l.health, NoTick)
      else Reacquires(events, i + 1, RestoreFailed)
  }

  lemma AfterStopStep(l: Loop, events: seq<Event>, m: Loop)
    requires l.stopped && m.stopped && events != [] && !events[|events| - 1].Started?
    requires (m.health, m.phase) == AfterStop(l, events[..|events| - 1])
    ensures var n := Next(m, events[|events| - 1]);
            n.stopped && (n.health, n.phase) == AfterStop(l, events)
  {
    match l.phase
    case NoTick =>
    case Reacquiring =>
    case Beating =>
  }

  /** A stopped loop that is not started again changes health only through the tick that was under way:
      a lost renewal fails it, and then, or if the loss came before the stop, its re-acquire makes it
      READY exactly when it succeeds with the runtime READY; nothing later has any effect. */
  lemma {:induction false} StoppedLoopHealth(l: Loop, events: seq<Event>)
    requires l.stopped && forall i :: 0 <= i < |events| ==> !events[i].Started?
    ensures After(l, events).stopped
    ensures (After(l, events).health, After(l, events).phase) == AfterStop(l, events)
    decreases |events|
  {
    if events != [] {
      StoppedLoopHealth(l, events[..|events| - 1]);
      AfterStopStep(l, events, After(l, events[..|events| - 1]));
    }
  }

  /** With no tick under way at the stop, nothing changes health. */
  lemma StoppedIdleLoopKeepsHealth(l: Loop, events: seq<Event>)
    requires l.stopped && l.phase.NoTick? && forall i :: 0 <= i < |events| ==> !events[i].Started?
    ensures After(l, events).health == l.health
  {
    StoppedLoopHealth(l, events);
  }

  /** Stopping does not call back a tick under way: it can still report READY. */
  lemma StoppedLoopCanReportReady(l: Loop, error: LeaseError)
    requires l.phase.Beating?
    ensures var events := [Stopped, Answered(Lost(error)), Reacquired(true, true)];
            After(l, events).stopped && !After(l, events).running && After(l, events).health == Ready
  {
    var events := [Stopped, Answered(Lost(error)), Reacquired(true, true)];
    assert events[..0] == [] && events[..3] == events;
    AfterPrefix(l, events, 0);
    AfterPrefix(l, events, 1);
    AfterPrefix(l, events, 2);
  }
}

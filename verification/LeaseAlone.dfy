/** What the calls of the lease protocol come to when nothing interferes: the service methods
    (packages/controller-lease/src/index.ts), the open of the control plane
    (apps/control-plane/src/handlers.ts) and the adoption of the host (apps/agent-host/src/recovery.ts). */
module LeaseAlone {
  import opened Wrappers
  import opened Lease
  import opened Timestamps
  import opened LeaseProtocol

  /** Up to `n` steps of `p`, and of nobody else. */
  function Alone(s: State, p: Proc, n: nat): State
    decreases n
  {
    if n == 0 || !Enabled(s, Step(p)) then s else Alone(Apply(s, Step(p)), p, n - 1)
  }

  /** The whole of a call. */
  function Called(s: State, p: Proc, request: Request, n: nat): State
    requires Enabled(s, Begin(p, request))
  {
    Alone(Apply(s, Begin(p, request)), p, n)
  }

  predicate Free(s: State, p: Proc) {
    p < |s.procs| && Waits(s.procs[p]) && s.lock.None?
  }

  /** `s` with the row as given and `p` at `pc`, holding the row's lock or not. */
  function With(s: State, p: Proc, row: Row, locked: bool, pc: Pc): State
    requires p < |s.procs|
  {
    State(s.driver, s.clock, row, if locked then Some(p) else None, s.procs[p := pc])
  }

  function Ending(s: State, p: Proc, row: Row, pc: Pc): State
    requires p < |s.procs|
  {
    With(s, p, row, false, pc)
  }

  /** One step of `p` from `pc`, seen from the state the call began in. */
  lemma OneStep(s: State, p: Proc, row: Row, locked: bool, pc: Pc, row': Row, locked': bool, pc': Pc, n: nat)
    requires p < |s.procs| && !Waits(pc)
    requires Do(With(s, p, row, locked, pc), p, pc) == Effect(row', if locked' then Some(p) else None, pc')
    ensures Alone(With(s, p, row, locked, pc), p, n + 1) == Alone(With(s, p, row', locked', pc'), p, n)
  {
    assert s.procs[p := pc][p := pc'] == s.procs[p := pc'];
  }

  lemma AtRest(s: State, p: Proc, n: nat)
    requires p < |s.procs| && Waits(s.procs[p])
    ensures Alone(s, p, n) == s
  {
  }

  lemma HeartbeatSteps(s: State, p: Proc, call: Call, c: Controller, n: nat)
    requires p < |s.procs|
    ensures Alone(Ending(s, p, s.row, BeatClock(call, c)), p, n + 2) ==
            Alone(if Extendable(s.row, c, s.clock) then Ending(s, p, Extend(s.row, c, s.clock), Returned(call, c))
                  else Ending(s, p, s.row, AtClassify(call, c, s.clock)), p, n)
  {
    var mine := Extendable(s.row, c, s.clock);
    OneStep(s, p, s.row, false, BeatClock(call, c), s.row, false, AtExtend(call, c, s.clock), n + 1);
    OneStep(s, p, s.row, false, AtExtend(call, c, s.clock), Extend(s.row, c, s.clock), false,
            if mine then Returned(call, c) else AtClassify(call, c, s.clock), n);
  }

  /** A heartbeat extends exactly an unexpired lease of its own, and each error means its cause. */
  lemma HeartbeatAlone(s: State, p: Proc, c: Controller)
    requires Free(s, p)
    ensures Called(s, p, Heartbeat(c), 3) ==
            if s.row.Some? && s.row.value.controller == c && s.clock < s.row.value.expiresAt
            then Ending(s, p, Some(Record(c, s.row.value.user, s.clock + 45000, s.clock)), Returned(Plain, c))
            else Ending(s, p, s.row, Threw(Plain, if s.row.None? then NotFound
                                                  else if s.row.value.controller != c then NotOwner else Expired))
  {
    assert Apply(s, Begin(p, Heartbeat(c))) == Ending(s, p, s.row, BeatClock(Plain, c));
    HeartbeatSteps(s, p, Plain, c, 1);
    if Extendable(s.row, c, s.clock) {
      AtRest(Ending(s, p, Extend(s.row, c, s.clock), Returned(Plain, c)), p, 1);
    } else {
      OneStep(s, p, s.row, false, AtClassify(Plain, c, s.clock),
              s.row, false, Threw(Plain, Classify(Loaded(s.driver, s.row), c, s.clock)), 0);
    }
  }

  /** A release deletes exactly an owned row. */
  lemma ReleaseAlone(s: State, p: Proc, c: Controller)
    requires Free(s, p)
    ensures Called(s, p, Release(c), 2) ==
            if s.row.None? then Ending(s, p, s.row, Threw(Plain, NotFound))
            else if s.row.value.controller != c then Ending(s, p, s.row, Threw(Plain, NotOwner))
            else Ending(s, p, None, Returned(Plain, c))
  {
    assert Apply(s, Begin(p, Release(c))) == Ending(s, p, s.row, AtRelease(c));
    if Owns(s.row, c) {
      OneStep(s, p, s.row, false, AtRelease(c), s.row, true, AtDelete(c), 1);
      OneStep(s, p, s.row, true, AtDelete(c), None, false, Returned(Plain, c), 0);
    } else {
      var error := if s.row.None? then NotFound else NotOwner;
      OneStep(s, p, s.row, false, AtRelease(c), s.row, false, Threw(Plain, error), 1);
      AtRest(Ending(s, p, s.row, Threw(Plain, error)), p, 1);
    }
  }

  /** The steps of an acquire, whichever call it is part of. */
  lemma AcquireSteps(s: State, p: Proc, call: Call, c: Controller, u: string, n: nat)
    requires p < |s.procs|
    ensures Alone(Ending(s, p, s.row, AcquireClock(call, c, u)), p, n + 2) ==
            Alone(if Active(s.row, s.clock) then Ending(s, p, s.row, AtHolder(call, c, u))
                  else Ending(s, p, Some(Fresh(c, u, s.clock)), Returned(call, c)), p, n)
  {
    OneStep(s, p, s.row, false, AcquireClock(call, c, u), s.row, false, AtUpsert(call, c, u, s.clock), n + 1);
    if Active(s.row, s.clock) {
      OneStep(s, p, s.row, false, AtUpsert(call, c, u, s.clock), s.row, false, AtHolder(call, c, u), n);
    } else {
      OneStep(s, p, s.row, false, AtUpsert(call, c, u, s.clock),
              Some(Fresh(c, u, s.clock)), false, Returned(call, c), n);
    }
  }

  /** An acquire is refused exactly by an unexpired row, whose holder it names. */
  lemma AcquireAlone(s: State, p: Proc, c: Controller, u: string)
    requires Free(s, p)
    ensures Called(s, p, Acquire(c, u), 3) ==
            if s.row.Some? && s.clock < s.row.value.expiresAt
            then Ending(s, p, s.row, Threw(Plain, AlreadyHeld(Some(s.row.value.controller))))
            else Ending(s, p, Some(Record(c, u, s.clock + 45000, s.clock)), Returned(Plain, c))
  {
    assert Apply(s, Begin(p, Acquire(c, u))) == Ending(s, p, s.row, AcquireClock(Plain, c, u));
    AcquireSteps(s, p, Plain, c, u, 1);
    if Active(s.row, s.clock) {
      OneStep(s, p, s.row, false, AtHolder(Plain, c, u),
              s.row, false, Threw(Plain, AlreadyHeld(Some(s.row.value.controller))), 0);
    } else {
      AtRest(Ending(s, p, Some(Fresh(c, u, s.clock)), Returned(Plain, c)), p, 1);
    }
  }

  /** A takeover always installs the new controller. */
  lemma TakeoverAlone(s: State, p: Proc, c: Controller, u: string)
    requires Free(s, p)
    ensures Called(s, p, Takeover(c, u), 3)
         == Ending(s, p, Some(Record(c, u, s.clock + 45000, s.clock)), Returned(Plain, c))
  {
    var found := s.row.Some?;
    assert Apply(s, Begin(p, Takeover(c, u))) == Ending(s, p, s.row, AtTakeover(c, u));
    OneStep(s, p, s.row, false, AtTakeover(c, u), s.row, found, TakeClock(c, u, found), 2);
    OneStep(s, p, s.row, found, TakeClock(c, u, found), s.row, found, AtTakeWrite(c, u, found, s.clock), 1);
    OneStep(s, p, s.row, found, AtTakeWrite(c, u, found, s.clock),
            Some(Fresh(c, u, s.clock)), false, Returned(Plain, c), 0);
  }

  // ---------------------------------------------------------------- opens and adoptions

  /** Active as `getActive` sees it. */
  predicate SeenActive(s: State) {
    Active(Loaded(s.driver, s.row), s.clock)
  }

  /** Stored as active, and read back as expired. */
  predicate InLastSecond(s: State) {
    Active(s.row, s.clock) && !SeenActive(s)
  }

  /** That is so exactly in the last second of the lease, when its end is not a whole second and the
      columns are read as dates. */
  lemma InLastSecondIff(s: State)
    ensures InLastSecond(s) <==>
              s.driver.ReturnsDates? && s.row.Some?
              && s.row.value.expiresAt - s.row.value.expiresAt % 1000 <= s.clock < s.row.value.expiresAt
  {
  }

  /** `getActive` on a row it sees as active. */
  lemma ActiveSteps(s: State, p: Proc, call: Call, c: Controller, u: string, n: nat)
    requires p < |s.procs| && SeenActive(s)
    ensures Alone(Ending(s, p, s.row, AtRead(call, c, u, None)), p, n + 2) ==
            Alone(Ending(s, p, s.row, WhenActive(AtCheck(call, c, u, None, s.row.value))), p, n)
  {
    var check := AtCheck(call, c, u, None, s.row.value);
    OneStep(s, p, s.row, false, AtRead(call, c, u, None), s.row, false, check, n + 1);
    OneStep(s, p, s.row, false, check, s.row, false, WhenActive(check), n);
  }

  /** `getActive` on a row it does not see as active; a missing row takes one step. */
  lemma InactiveSteps(s: State, p: Proc, call: Call, c: Controller, u: string, lost: Option<LeaseError>, n: nat)
    requires p < |s.procs| && !SeenActive(s)
    ensures Alone(Ending(s, p, s.row, AtRead(call, c, u, lost)), p, n + 2) ==
            Alone(Ending(s, p, s.row, WhenInactive(AtRead(call, c, u, lost))), p, if s.row.None? then n + 1 else n)
  {
    var read := AtRead(call, c, u, lost);
    if s.row.None? {
      OneStep(s, p, s.row, false, read, s.row, false, WhenInactive(read), n + 1);
    } else {
      var check := AtCheck(call, c, u, lost, s.row.value);
      OneStep(s, p, s.row, false, read, s.row, false, check, n + 1);
      OneStep(s, p, s.row, false, check, s.row, false, WhenInactive(read), n);
    }
  }

  /** The acquire that follows, on a row that is indeed missing or expired. */
  lemma AcquiresInactive(s: State, p: Proc, call: Call, c: Controller, u: string, n: nat)
    requires p < |s.procs| && !Active(s.row, s.clock)
    ensures Alone(Ending(s, p, s.row, AtRead(call, c, u, None)), p, n + 4)
         == Ending(s, p, Some(Fresh(c, u, s.clock)), Returned(call, c))
  {
    var left: nat := if s.row.None? then n + 1 else n;
    InactiveSteps(s, p, call, c, u, None, n + 2);
    AcquireSteps(s, p, call, c, u, left);
    AtRest(Ending(s, p, Some(Fresh(c, u, s.clock)), Returned(call, c)), p, left);
  }

  /** In the last second of a lease it is refused, and an open asks `getActive` again, in vain. */
  lemma RefusedInLastSecond(s: State, p: Proc, call: Call, c: Controller, u: string)
    requires p < |s.procs| && InLastSecond(s) && !call.Plain?
    ensures Alone(Ending(s, p, s.row, AtRead(call, c, u, None)), p, 7)
         == Ending(s, p, s.row, Threw(call, AlreadyHeld(Some(s.row.value.controller))))
  {
    var refused := AlreadyHeld(Some(s.row.value.controller));
    InactiveSteps(s, p, call, c, u, None, 5);
    AcquireSteps(s, p, call, c, u, 3);
    if call.Open? {
      OneStep(s, p, s.row, false, AtHolder(call, c, u), s.row, false, AtRead(call, c, u, Some(refused)), 2);
      InactiveSteps(s, p, call, c, u, Some(refused), 0);
    } else {
      OneStep(s, p, s.row, false, AtHolder(call, c, u), s.row, false, Threw(call, refused), 2);
      AtRest(Ending(s, p, s.row, Threw(call, refused)), p, 2);
    }
  }

  /** An open shares an active lease, whoever holds it, and acquires its own when none is active; but in
      the last second of a lease it fails. */
  lemma OpenAlone(s: State, p: Proc, newId: Controller, u: string)
    requires Free(s, p)
    ensures Called(s, p, OpenWorkspace(newId, u), 7) ==
            if InLastSecond(s) then Ending(s, p, s.row, Threw(Open, AlreadyHeld(Some(s.row.value.controller))))
            else if s.row.Some? && s.clock < s.row.value.expiresAt
            then Ending(s, p, s.row, Returned(Open, s.row.value.controller))
            else Ending(s, p, Some(Record(newId, u, s.clock + 45000, s.clock)), Returned(Open, newId))
  {
    assert Apply(s, Begin(p, OpenWorkspace(newId, u))) == Ending(s, p, s.row, AtRead(Open, newId, u, None));
    if InLastSecond(s) {
      RefusedInLastSecond(s, p, Open, newId, u);
    } else if Active(s.row, s.clock) {
      ActiveSteps(s, p, Open, newId, u, 5);
      AtRest(Ending(s, p, s.row, Returned(Open, s.row.value.controller)), p, 5);
    } else {
      AcquiresInactive(s, p, Open, newId, u, 3);
    }
  }

  /** A host acquires when no lease is active, extends its own, and refuses another's; but in the last
      second of a lease it is refused, even its own. */
  lemma AdoptAlone(s: State, p: Proc, c: Controller, u: string)
    requires Free(s, p)
    ensures Called(s, p, AdoptLease(c, u), 7) ==
            if s.row.None? || s.row.value.expiresAt <= s.clock
            then Ending(s, p, Some(Record(c, u, s.clock + 45000, s.clock)), Returned(Adopt, c))
            else if s.row.value.controller == c && !InLastSecond(s)
            then Ending(s, p, Some(Record(c, s.row.value.user, s.clock + 45000, s.clock)), Returned(Adopt, c))
            else Ending(s, p, s.row, Threw(Adopt, AlreadyHeld(Some(s.row.value.controller))))
  {
    assert Apply(s, Begin(p, AdoptLease(c, u))) == Ending(s, p, s.row, AtRead(Adopt, c, u, None));
    if !Active(s.row, s.clock) {
      AcquiresInactive(s, p, Adopt, c, u, 3);
    } else if InLastSecond(s) {
      RefusedInLastSecond(s, p, Adopt, c, u);
    } else {
      ActiveSteps(s, p, Adopt, c, u, 5);
      if s.row.value.controller == c {
        HeartbeatSteps(s, p, Adopt, c, 3);
        AtRest(Ending(s, p, Extend(s.row, c, s.clock), Returned(Adopt, c)), p, 3);
      } else {
        AtRest(Ending(s, p, s.row, Threw(Adopt, AlreadyHeld(Some(s.row.value.controller)))), p, 5);
      }
    }
  }

  /** An undisturbed open succeeds exactly when the clock is not in the last second of a lease, and an
      adoption exactly when it is not and no other controller holds an active lease. */
  lemma OpenAndAdoptSucceedIff(s: State, p: Proc, c: Controller, u: string)
    requires Free(s, p)
    ensures Called(s, p, OpenWorkspace(c, u), 7).procs[p].Returned? <==> !InLastSecond(s)
    ensures Called(s, p, AdoptLease(c, u), 7).procs[p].Returned?
            <==> !InLastSecond(s) && (s.row.Some? && s.clock < s.row.value.expiresAt ==> s.row.value.controller == c)
  {
    OpenAlone(s, p, c, u);
    AdoptAlone(s, p, c, u);
  }
}

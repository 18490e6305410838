/** The lease protocol: any number of processes calling the lease service
    (packages/controller-lease/src/index.ts), opening workspaces
    (apps/control-plane/src/handlers.ts) and adopting leases (apps/agent-host/src/recovery.ts)
    against one workspace's row.

    Every clock read, row read and conditional write is a step of its own, so a `now` can be
    arbitrarily stale when it is used.  A transaction that finds the row holds its lock until it
    commits; a missing row cannot be locked.  The conditional writes compare with the expiry as it is
    stored, the service with the expiry as it is read back. */
module LeaseProtocol {
  import opened Wrappers
  import opened Lease
  import opened Timestamps

  type Proc = nat

  datatype Call = Plain | Open | Adopt

  datatype Request =
    | Acquire(controller: Controller, user: string)
    | Heartbeat(controller: Controller)
    | Release(controller: Controller)
    | Takeover(controller: Controller, user: string)
    | OpenWorkspace(newId: Controller, user: string)
    | AdoptLease(controller: Controller, user: string)

  /** What a process does next. */
  datatype Pc =
    | Idle
    | AcquireClock(call: Call, controller: Controller, user: string)
    | AtUpsert(call: Call, controller: Controller, user: string, now: Instant)
    | AtHolder(call: Call, controller: Controller, user: string)
    | AtRead(call: Call, controller: Controller, user: string, lost: Option<LeaseError>)
    | AtCheck(call: Call, controller: Controller, user: string, lost: Option<LeaseError>, read: Record)
    | BeatClock(call: Call, controller: Controller)
    | AtExtend(call: Call, controller: Controller, now: Instant)
    | AtClassify(call: Call, controller: Controller, now: Instant)
    | AtRelease(controller: Controller)
    | AtDelete(controller: Controller)
    | AtTakeover(controller: Controller, user: string)
    | TakeClock(controller: Controller, user: string, found: bool)
    | AtTakeWrite(controller: Controller, user: string, found: bool, now: Instant)
    | Returned(call: Call, controller: Controller)
    | Threw(call: Call, error: LeaseError)

  datatype State = State(driver: Driver, clock: Instant, row: Row, lock: Option<Proc>, procs: seq<Pc>)

  datatype Action = Tick(ms: nat) | Begin(p: Proc, request: Request) | Step(p: Proc) | Crash(p: Proc)

  // ---------------------------------------------------------------- steps

  predicate Waits(pc: Pc) {
    pc.Idle? || pc.Returned? || pc.Threw?
  }

  /** A statement on the row; every read of it is `FOR UPDATE`. */
  predicate TouchesRow(pc: Pc) {
    || pc.AtUpsert? || pc.AtHolder? || pc.AtRead? || pc.AtExtend? || pc.AtClassify?
    || pc.AtRelease? || pc.AtDelete? || pc.AtTakeover? || pc.AtTakeWrite?
  }

  function Entry(request: Request): Pc {
    match request
    case Acquire(c, u) => AcquireClock(Plain, c, u)
    case Heartbeat(c) => BeatClock(Plain, c)
    case Release(c) => AtRelease(c)
    case Takeover(c, u) => AtTakeover(c, u)
    case OpenWorkspace(c, u) => AtRead(Open, c, u, None)
    case AdoptLease(c, u) => AtRead(Adopt, c, u, None)
  }

  function Owner(row: Row): Option<Controller> {
    if row.Some? then Some(row.value.controller) else None
  }

  /** The row as it is read back. */
  function Loaded(driver: Driver, row: Row): Row {
    if row.None? then None
    else Some(row.value.(expiresAt := ReadBack(driver, row.value.expiresAt),
                         updatedAt := ReadBack(driver, row.value.updatedAt)))
  }

  datatype Effect = Effect(row: Row, lock: Option<Proc>, pc: Pc)

  /** `getActive` found nothing active: acquire, or, for an open that already lost, give up. */
  function WhenInactive(pc: Pc): Pc
    requires pc.AtRead? || pc.AtCheck?
  {
    if pc.lost.Some? then Threw(pc.call, pc.lost.value) else AcquireClock(pc.call, pc.controller, pc.user)
  }

  /** `getActive` found `read` active: an open shares it, a host adopts it only as its own. */
  function WhenActive(pc: Pc): Pc
    requires pc.AtCheck?
  {
    if pc.call.Open? then Returned(Open, pc.read.controller)
    else if pc.read.controller == pc.controller then BeatClock(pc.call, pc.controller)
    else Threw(pc.call, AlreadyHeld(Some(pc.read.controller)))
  }

  /** One step of process `p` at `pc`. */
  function Do(s: State, p: Proc, pc: Pc): Effect {
    match pc
    case AcquireClock(call, c, u) => Effect(s.row, s.lock, AtUpsert(call, c, u, s.clock))
    case AtUpsert(call, c, u, now) =>
      if Active(s.row, now) then Effect(s.row, s.lock, AtHolder(call, c, u))
      else Effect(Some(Fresh(c, u, now)), s.lock, Returned(call, c))
    case AtHolder(call, c, u) =>
      var refused := AlreadyHeld(Owner(s.row));
      Effect(s.row, s.lock, if call.Open? then AtRead(call, c, u, Some(refused)) else Threw(call, refused))
    case AtRead(call, c, u, lost) =>
      if s.row.None? then Effect(s.row, s.lock, WhenInactive(pc))
      else Effect(s.row, s.lock, AtCheck(call, c, u, lost, s.row.value))
    case AtCheck(_, _, _, _, read) =>
      Effect(s.row, s.lock, if ReadBack(s.driver, read.expiresAt) <= s.clock then WhenInactive(pc) else WhenActive(pc))
    case BeatClock(call, c) => Effect(s.row, s.lock, AtExtend(call, c, s.clock))
    case AtExtend(call, c, now) =>
      if Extendable(s.row, c, now) then Effect(Extend(s.row, c, now), s.lock, Returned(call, c))
      else Effect(s.row, s.lock, AtClassify(call, c, now))
    case AtClassify(call, c, now) => Effect(s.row, s.lock, Threw(call, Classify(Loaded(s.driver, s.row), c, now)))
    case AtRelease(c) =>
      if s.row.None? then Effect(s.row, s.lock, Threw(Plain, NotFound))
      else if s.row.value.controller != c then Effect(s.row, s.lock, Threw(Plain, NotOwner))
      else Effect(s.row, Some(p), AtDelete(c))
    case AtDelete(c) => Effect(None, None, Returned(Plain, c))
    case AtTakeover(c, u) =>
      Effect(s.row, if s.row.Some? then Some(p) else s.lock, TakeClock(c, u, s.row.Some?))
    case TakeClock(c, u, found) => Effect(s.row, s.lock, AtTakeWrite(c, u, found, s.clock))
    case AtTakeWrite(c, u, found, now) =>
      if found then Effect(Some(Fresh(c, u, now)), None, Returned(Plain, c))
      else if s.row.None? then Effect(Some(Fresh(c, u, now)), s.lock, Returned(Plain, c))
      else Effect(s.row, s.lock, Threw(Plain, DuplicateKey))
    case _ => Effect(s.row, s.lock, pc)
  }

  predicate Enabled(s: State, a: Action) {
    match a
    case Tick(_) => true
    case Begin(p, _) => p < |s.procs| && Waits(s.procs[p])
    case Step(p) =>
      && p < |s.procs| && !Waits(s.procs[p])
      && (TouchesRow(s.procs[p]) ==> s.lock.None? || s.lock.value == p)
    case Crash(p) => p < |s.procs|
  }

  function Apply(s: State, a: Action): State
    requires Enabled(s, a)
  {
    match a
    case Tick(ms) => s.(clock := s.clock + ms)
    case Begin(p, request) => s.(procs := s.procs[p := Entry(request)])
    case Step(p) =>
      var e := Do(s, p, s.procs[p]);
      s.(row := e.row, lock := e.lock, procs := s.procs[p := e.pc])
    case Crash(p) => s.(lock := if s.lock == Some(p) then None else s.lock, procs := s.procs[p := Idle])
  }

  // ---------------------------------------------------------------- the invariant

  /** Holds the row's lock. */
  predicate Locks(pc: Pc) {
    pc.AtDelete? || (pc.TakeClock? && pc.found) || (pc.AtTakeWrite? && pc.found)
  }

  predicate ReadsClock(pc: Pc) {
    pc.AtUpsert? || pc.AtExtend? || pc.AtClassify? || pc.AtTakeWrite?
  }

  ghost predicate PcOk(s: State, p: Proc)
    requires p < |s.procs|
  {
    var pc := s.procs[p];
    && (ReadsClock(pc) ==> pc.now <= s.clock)
    && (Locks(pc) <==> s.lock == Some(p))
    && (pc.AtDelete? ==> Owns(s.row, pc.controller))
    && (pc.AtRead? || pc.AtCheck? ==> !pc.call.Plain? && (pc.lost.Some? ==> pc.call.Open?))
    && (pc.BeatClock? || pc.AtExtend? || pc.AtClassify? ==> !pc.call.Open?)
  }

  ghost predicate RowOk(row: Row, clock: Instant) {
    row.Some? ==> row.value.expiresAt == row.value.updatedAt + LEASE_EXPIRY_MS && row.value.updatedAt <= clock
  }

  ghost predicate Inv(s: State) {
    && RowOk(s.row, s.clock)
    && (s.lock.Some? ==> s.row.Some? && s.lock.value < |s.procs|)
    && forall p: Proc :: p < |s.procs| ==> PcOk(s, p)
  }

  lemma StepKeepsOwnPc(s: State, p: Proc)
    requires Inv(s) && Enabled(s, Step(p))
    ensures PcOk(Apply(s, Step(p)), p)
    ensures RowOk(Apply(s, Step(p)).row, s.clock)
    ensures Apply(s, Step(p)).lock.Some? ==> Apply(s, Step(p)).row.Some?
    ensures Apply(s, Step(p)).lock != s.lock ==> TouchesRow(s.procs[p]) && Apply(s, Step(p)).lock in {None, Some(p)}
    ensures Apply(s, Step(p)).row != s.row ==> TouchesRow(s.procs[p])
  {
    assert PcOk(s, p);
  }

  lemma ApplyKeepsInv(s: State, a: Action)
    requires Inv(s) && Enabled(s, a)
    ensures Inv(Apply(s, a))
  {
    var t := Apply(s, a);
    if a.Step? {
      StepKeepsOwnPc(s, a.p);
    }
    forall q: Proc | q < |t.procs| ensures PcOk(t, q) {
      assert PcOk(s, q);
      assert !a.Tick? ==> PcOk(s, a.p);
    }
  }

  // ---------------------------------------------------------------- runs

  ghost predicate Execution(states: seq<State>, actions: seq<Action>) {
    && |states| == |actions| + 1
    && Inv(states[0])
    && forall i :: 0 <= i < |actions| ==>
         Enabled(states[i], actions[i]) && states[i + 1] == Apply(states[i], actions[i])
  }

  lemma {:induction false} InvAlways(states: seq<State>, actions: seq<Action>, i: nat)
    requires Execution(states, actions) && i < |states|
    ensures Inv(states[i])
  {
    if i > 0 {
      InvAlways(states, actions, i - 1);
      ApplyKeepsInv(states[i - 1], actions[i - 1]);
    }
  }

  lemma {:induction false} ClockNeverGoesBack(states: seq<State>, actions: seq<Action>, i: nat, j: nat)
    requires Execution(states, actions) && i <= j < |states|
    ensures states[i].clock <= states[j].clock && |states[i].procs| == |states[j].procs|
  {
    if i < j {
      ClockNeverGoesBack(states, actions, i, j - 1);
      assert states[j - 1 + 1] == Apply(states[j - 1], actions[j - 1]);
    }
  }

  /** The step installs `c` as the owner, or would. */
  predicate Establishes(s: State, a: Action, c: Controller) {
    a.Step? && a.p < |s.procs| && (s.procs[a.p].AtUpsert? || s.procs[a.p].AtTakeWrite?) && s.procs[a.p].controller == c
  }

  /** A takeover, the owner's release, or an acquire whose victim had expired by the acquire's
      own clock reading, and so by the clock. */
  predicate EndsOwnership(s: State, a: Action, c: Controller) {
    && a.Step? && a.p < |s.procs|
    && var pc := s.procs[a.p];
       || pc.AtTakeWrite?
       || (pc.AtDelete? && pc.controller == c)
       || (pc.AtUpsert? && s.row.Some? && s.row.value.expiresAt <= pc.now <= s.clock)
  }

  /** The only ways a row changes hands, and who holds it then. */
  lemma OwnershipStep(s: State, a: Action)
    requires Inv(s) && Enabled(s, a) && Owner(Apply(s, a).row) != Owner(s.row)
    ensures Owner(s.row).Some? ==> EndsOwnership(s, a, Owner(s.row).value)
    ensures Owner(Apply(s, a).row).Some? ==> Establishes(s, a, Owner(Apply(s, a).row).value)
  {
    if a.Step? {
      assert PcOk(s, a.p);
    }
  }

  /** A step changes the row only as the successful end of its call: whatever fails has written nothing. */
  lemma OnlySuccessWrites(s: State, a: Action)
    requires Inv(s) && Enabled(s, a) && Apply(s, a).row != s.row
    ensures a.Step? && Apply(s, a).procs[a.p].Returned?
    ensures Apply(s, a).row.Some? ==> Owns(Apply(s, a).row, Apply(s, a).procs[a.p].controller)
  {
  }

  /** A refused heartbeat is told by the row as it is read afterwards: gone, another's, or expired as it is
      read back; a row that could be extended now has changed hands in between, and counts as another's. */
  lemma RefusedHeartbeatIsToldBy(s: State, p: Proc)
    requires Enabled(s, Step(p)) && s.procs[p].AtClassify?
    ensures var pc, t := s.procs[p], Apply(s, Step(p));
            && t.row == s.row
            && t.procs[p] == Threw(pc.call, if s.row.None? then NotFound
                                            else if s.row.value.controller != pc.controller then NotOwner
                                            else if ReadBack(s.driver, s.row.value.expiresAt) <= pc.now then Expired
                                            else NotOwner)
  {
  }

  /** A takeover replaces the row it found and locked; one that found none inserts its own, and is refused
      by a row that has come in between, which stays. */
  lemma TakeoverWrites(s: State, p: Proc)
    requires Inv(s) && Enabled(s, Step(p)) && s.procs[p].AtTakeWrite?
    ensures var pc, t := s.procs[p], Apply(s, Step(p));
            if pc.found || s.row.None? then
              && t.row == Some(Record(pc.controller, pc.user, pc.now + 45000, pc.now))
              && t.procs[p] == Returned(Plain, pc.controller)
            else t.row == s.row && t.procs[p] == Threw(Plain, DuplicateKey)
    ensures s.procs[p].found ==> s.row.Some? && s.lock == Some(p)
  {
    assert PcOk(s, p);
  }

  /** Whoever loses the row loses it to a takeover, its own release, or an acquire after expiry. */
  lemma {:induction false} OwnershipEndsOnlySo(states: seq<State>, actions: seq<Action>, i: nat, j: nat, c: Controller)
    returns (k: nat)
    requires Execution(states, actions) && i <= j < |states|
    requires Owner(states[i].row) == Some(c) && Owner(states[j].row) != Some(c)
    ensures i <= k < j && Owner(states[k].row) == Some(c) && Owner(states[k + 1].row) != Some(c)
    ensures EndsOwnership(states[k], actions[k], c)
    decreases j
  {
    if Owner(states[j - 1].row) == Some(c) {
      k := j - 1;
      InvAlways(states, actions, k);
      OwnershipStep(states[k], actions[k]);
    } else {
      k := OwnershipEndsOnlySo(states, actions, i, j - 1, c);
    }
  }

  /** A controller that does not own the row comes to own it only by its own acquire or takeover. */
  lemma {:induction false} DisplacedStaysDisplaced(states: seq<State>, actions: seq<Action>, i: nat, j: nat,
                                                   c: Controller)
    requires Execution(states, actions) && i <= j < |states| && Owner(states[i].row) != Some(c)
    requires forall k :: i <= k < j ==> !Establishes(states[k], actions[k], c)
    ensures Owner(states[j].row) != Some(c)
  {
    if i < j {
      DisplacedStaysDisplaced(states, actions, i, j - 1, c);
      InvAlways(states, actions, j - 1);
      if Owner(states[j].row) != Owner(states[j - 1].row) {
        OwnershipStep(states[j - 1], actions[j - 1]);
      }
    }
  }

  /** Until then its heartbeats are refused and write nothing, however early they read the clock. */
  lemma DisplacedHeartbeatsFail(states: seq<State>, actions: seq<Action>, i: nat, j: nat, c: Controller)
    requires Execution(states, actions) && i <= j < |actions| && Owner(states[i].row) != Some(c)
    requires forall k :: i <= k < j ==> !Establishes(states[k], actions[k], c)
    requires actions[j].Step? && actions[j].p < |states[j].procs|
    requires states[j].procs[actions[j].p].AtExtend? && states[j].procs[actions[j].p].controller == c
    ensures states[j + 1].row == states[j].row && states[j + 1].procs[actions[j].p].AtClassify?
  {
    DisplacedStaysDisplaced(states, actions, i, j, c);
    assert states[j + 1] == Apply(states[j], actions[j]);
  }

  // ---------------------------------------------------------------- while nothing ends the lease

  /** No lease is expired in `s`, and `a` neither releases nor takes over. */
  predicate Calm(s: State, a: Action) {
    && (s.row.Some? ==> Active(s.row, s.clock))
    && (a.Step? && a.p < |s.procs| ==> !s.procs[a.p].AtDelete? && !s.procs[a.p].AtTakeWrite?)
  }

  /** An unexpired lease is never stolen. */
  lemma CalmKeepsOwner(s: State, a: Action)
    requires Inv(s) && Enabled(s, a) && Calm(s, a) && s.row.Some?
    ensures Owner(Apply(s, a).row) == Owner(s.row)
  {
    if Owner(Apply(s, a).row) != Owner(s.row) {
      OwnershipStep(s, a);
    }
  }

  /** An open, or a host's adoption, that has succeeded. */
  predicate HasShared(pc: Pc) {
    pc.Returned? && !pc.call.Plain?
  }

  /** What opens and adoptions have read or returned is the owner. */
  ghost predicate Shared(s: State) {
    forall p: Proc :: p < |s.procs| ==>
      && (s.procs[p].AtCheck? ==> Owns(s.row, s.procs[p].read.controller))
      && (HasShared(s.procs[p]) ==> Owns(s.row, s.procs[p].controller))
  }

  lemma CalmKeepsShared(s: State, a: Action)
    requires Inv(s) && Enabled(s, a) && Calm(s, a) && Shared(s)
    ensures Shared(Apply(s, a))
  {
    var t := Apply(s, a);
    if s.row.Some? {
      CalmKeepsOwner(s, a);
    }
    forall p: Proc | p < |t.procs|
      ensures t.procs[p].AtCheck? ==> Owns(t.row, t.procs[p].read.controller)
      ensures HasShared(t.procs[p]) ==> Owns(t.row, t.procs[p].controller)
    {
      assert PcOk(s, p);
    }
  }

  lemma {:induction false} SharedAlways(states: seq<State>, actions: seq<Action>, j: nat)
    requires Execution(states, actions) && j < |states|
    requires Shared(states[0]) && forall k :: 0 <= k < |actions| ==> Calm(states[k], actions[k])
    ensures Shared(states[j])
  {
    if j > 0 {
      SharedAlways(states, actions, j - 1);
      InvAlways(states, actions, j - 1);
      CalmKeepsShared(states[j - 1], actions[j - 1]);
    }
  }

  /** While no lease expires, is released or is taken over, all opens and adoptions that succeed end
      with one controller, which owns the row from then on: a host that adopts the lease of an open
      ends owning the row under the very id the open returned. */
  lemma OpensAndAdoptionsAgree(states: seq<State>, actions: seq<Action>, i: nat, j: nat, p: Proc, q: Proc)
    requires Execution(states, actions) && i <= j < |states|
    requires forall r: Proc :: r < |states[0].procs| ==> states[0].procs[r].Idle?
    requires forall k :: 0 <= k < |actions| ==> Calm(states[k], actions[k])
    requires p < |states[i].procs| && q < |states[j].procs|
    requires HasShared(states[i].procs[p]) && HasShared(states[j].procs[q])
    ensures states[i].procs[p].controller == states[j].procs[q].controller
    ensures Owns(states[j].row, states[j].procs[q].controller)
  {
    SharedAlways(states, actions, i);
    SharedAlways(states, actions, j);
    OwnerStays(states, actions, i, j);
  }

  lemma {:induction false} OwnerStays(states: seq<State>, actions: seq<Action>, i: nat, j: nat)
    requires Execution(states, actions) && i <= j < |states| && states[i].row.Some?
    requires forall k :: 0 <= k < |actions| ==> Calm(states[k], actions[k])
    ensures Owner(states[j].row) == Owner(states[i].row)
  {
    if i < j {
      OwnerStays(states, actions, i, j - 1);
      InvAlways(states, actions, j - 1);
      CalmKeepsOwner(states[j - 1], actions[j - 1]);
    }
  }

  // ---------------------------------------------------------------- what an open returns

  /** Where the call that `p` is in at `j` began. */
  function Began(actions: seq<Action>, p: Proc, j: nat): (i: nat)
    requires j <= |actions|
    ensures i <= j
  {
    if j == 0 then 0
    else if actions[j - 1].Begin? && actions[j - 1].p == p then j
    else Began(actions, p, j - 1)
  }

  /** `c` owned the row at some instant between `i` and `j`, and its lease was unexpired then
      unless the whole span is at least an expiry long. */
  ghost predicate WasActive(states: seq<State>, i: nat, j: nat, c: Controller)
    requires i <= j < |states|
  {
    exists t: nat :: i <= t <= j && Owns(states[t].row, c)
      && (Active(states[t].row, states[t].clock) || states[j].clock - states[i].clock >= LEASE_EXPIRY_MS)
  }

  ghost predicate WasStored(states: seq<State>, i: nat, j: nat, record: Record)
    requires i <= j < |states|
  {
    exists t: nat :: i <= t <= j && states[t].row == Some(record)
  }

  ghost predicate OpenOk(states: seq<State>, actions: seq<Action>, p: Proc, j: nat)
    requires j <= |actions| && |states| == |actions| + 1 && p < |states[j].procs|
  {
    var pc, i := states[j].procs[p], Began(actions, p, j);
    && (pc.AtCheck? ==> WasStored(states, i, j, pc.read))
    && (pc.AtUpsert? ==> states[i].clock <= pc.now)
    && (pc.Returned? && pc.call.Open? ==> WasActive(states, i, j, pc.controller))
  }

  lemma WasStoredStays(states: seq<State>, i: nat, j: nat, record: Record)
    requires i <= j < |states| - 1 && WasStored(states, i, j, record)
    ensures WasStored(states, i, j + 1, record)
  {
  }

  lemma WasActiveStays(states: seq<State>, i: nat, j: nat, c: Controller)
    requires i <= j < |states| - 1 && WasActive(states, i, j, c) && states[j].clock <= states[j + 1].clock
    ensures WasActive(states, i, j + 1, c)
  {
  }

  /** A read that is still unexpired was unexpired when it was made. */
  lemma ReadWasActive(states: seq<State>, actions: seq<Action>, i: nat, j: nat, record: Record)
    requires Execution(states, actions) && i <= j < |states|
    requires WasStored(states, i, j, record) && states[j].clock < record.expiresAt
    ensures WasActive(states, i, j, record.controller)
  {
    var t: nat :| i <= t <= j && states[t].row == Some(record);
    ClockNeverGoesBack(states, actions, t, j);
    assert Active(states[t].row, states[t].clock);
  }

  lemma OwnStepKeepsOpenOk(states: seq<State>, actions: seq<Action>, p: Proc, j: nat)
    requires Execution(states, actions) && j < |actions| && p < |states[j].procs|
    requires OpenOk(states, actions, p, j) && actions[j] == Step(p)
    ensures p < |states[j + 1].procs| && OpenOk(states, actions, p, j + 1)
  {
    var pc, s, t, i := states[j].procs[p], states[j], states[j + 1], Began(actions, p, j);
    assert t == Apply(s, actions[j]) && Began(actions, p, j + 1) == i;
    ClockNeverGoesBack(states, actions, i, j);
    InvAlways(states, actions, j);
    assert PcOk(s, p);
    if pc.AtCheck? && s.clock < ReadBack(s.driver, pc.read.expiresAt) {
      ReadWasActive(states, actions, i, j, pc.read);
      WasActiveStays(states, i, j, pc.read.controller);
    }
    if pc.AtRead? && s.row.Some? {
      assert WasStored(states, i, j + 1, s.row.value);
    }
    if pc.AtUpsert? && !Active(s.row, pc.now) {
      assert Owns(t.row, pc.controller);
      assert WasActive(states, i, j + 1, pc.controller);
    }
  }

  lemma OtherStepKeepsOpenOk(states: seq<State>, actions: seq<Action>, p: Proc, j: nat)
    requires Execution(states, actions) && j < |actions| && p < |states[j].procs|
    requires OpenOk(states, actions, p, j) && actions[j] != Step(p)
    ensures p < |states[j + 1].procs| && OpenOk(states, actions, p, j + 1)
  {
    var pc, s, t, i := states[j].procs[p], states[j], states[j + 1], Began(actions, p, j);
    assert t == Apply(s, actions[j]);
    if t.procs[p] == pc && !(actions[j].Begin? && actions[j].p == p) {
      assert Began(actions, p, j + 1) == i;
      if pc.AtCheck? {
        WasStoredStays(states, i, j, pc.read);
      }
      if pc.Returned? && pc.call.Open? {
        ClockNeverGoesBack(states, actions, j, j + 1);
        WasActiveStays(states, i, j, pc.controller);
      }
    }
  }

  /** Whatever else happens, an open that succeeds returns a controller that owned the row at an
      instant of the call, with a lease unexpired then, unless the call took 45 s. */
  lemma {:induction false} OpenReturnsAStoredLease(states: seq<State>, actions: seq<Action>, p: Proc, j: nat)
    requires Execution(states, actions) && j < |states| && p < |states[0].procs| && states[0].procs[p].Idle?
    ensures p < |states[j].procs| && OpenOk(states, actions, p, j)
    ensures states[j].procs[p].Returned? && states[j].procs[p].call.Open? ==>
              WasActive(states, Began(actions, p, j), j, states[j].procs[p].controller)
  {
    if j > 0 {
      OpenReturnsAStoredLease(states, actions, p, j - 1);
      if actions[j - 1] == Step(p) {
        OwnStepKeepsOpenOk(states, actions, p, j - 1);
      } else {
        OtherStepKeepsOpenOk(states, actions, p, j - 1);
      }
    }
  }

  // ---------------------------------------------------------------- adoption

  predicate InCall(pc: Pc, call: Call) {
    || ((pc.AcquireClock? || pc.AtUpsert? || pc.AtHolder? || pc.AtRead? || pc.AtCheck?) && pc.call == call)
    || ((pc.BeatClock? || pc.AtExtend? || pc.AtClassify?) && pc.call == call)
  }

  /** One step of a host's adoption: it goes on as the same controller, ends owning the row as that
      controller, or throws; and every step but a successful last one leaves the row as it was. */
  lemma AdoptionStep(s: State, p: Proc)
    requires Inv(s) && Enabled(s, Step(p)) && InCall(s.procs[p], Adopt)
    ensures var t := Apply(s, Step(p));
            var pc := t.procs[p];
            || (InCall(pc, Adopt) && pc.controller == s.procs[p].controller && t.row == s.row)
            || (pc == Returned(Adopt, s.procs[p].controller) && Owns(t.row, s.procs[p].controller))
            || (pc.Threw? && pc.call == Adopt && t.row == s.row)
  {
    assert PcOk(s, p);
  }

  /** `c` owned the row at some instant between `i` and `j`. */
  ghost predicate OwnedWithin(states: seq<State>, i: nat, j: nat, c: Controller)
    requires i <= j < |states|
  {
    exists t: nat :: i <= t <= j && Owns(states[t].row, c)
  }

  /** The call `p` is in at `j` is the adoption of `c`. */
  predicate Adopts(actions: seq<Action>, p: Proc, j: nat, c: Controller)
    requires j <= |actions|
  {
    var i := Began(actions, p, j);
    i > 0 && actions[i - 1].Begin? && actions[i - 1].request.AdoptLease? && actions[i - 1].request.controller == c
  }

  /** No step of `p` since its call began has changed the row. */
  ghost predicate HasWrittenNothing(states: seq<State>, actions: seq<Action>, p: Proc, j: nat)
    requires j <= |actions| && |states| == |actions| + 1
  {
    forall k: nat :: Began(actions, p, j) <= k < j && actions[k] == Step(p) ==> states[k + 1].row == states[k].row
  }

  ghost predicate CallOk(states: seq<State>, actions: seq<Action>, p: Proc, j: nat)
    requires j <= |actions| && |states| == |actions| + 1 && p < |states[j].procs|
  {
    var pc := states[j].procs[p];
    && (InCall(pc, Adopt) ==> Adopts(actions, p, j, pc.controller))
    && (pc.Returned? && pc.call.Adopt? ==>
         && Adopts(actions, p, j, pc.controller)
         && OwnedWithin(states, Began(actions, p, j), j, pc.controller))
    && (!pc.Returned? && !pc.Idle? ==> HasWrittenNothing(states, actions, p, j))
  }

  lemma BeginKeepsCallOk(states: seq<State>, actions: seq<Action>, p: Proc, j: nat)
    requires Execution(states, actions) && j < |actions| && p < |states[j].procs|
    requires actions[j].Begin? && actions[j].p == p
    ensures p < |states[j + 1].procs| && CallOk(states, actions, p, j + 1)
  {
    assert states[j + 1] == Apply(states[j], actions[j]);
    assert Began(actions, p, j + 1) == j + 1;
  }

  lemma StepKeepsCallOk(states: seq<State>, actions: seq<Action>, p: Proc, j: nat)
    requires Execution(states, actions) && j < |actions| && p < |states[j].procs|
    requires CallOk(states, actions, p, j) && actions[j] == Step(p)
    ensures p < |states[j + 1].procs| && CallOk(states, actions, p, j + 1)
  {
    var s, t := states[j], states[j + 1];
    assert t == Apply(s, actions[j]) && Began(actions, p, j + 1) == Began(actions, p, j);
    InvAlways(states, actions, j);
    if t.row != s.row {
      OnlySuccessWrites(s, actions[j]);
    }
    if InCall(s.procs[p], Adopt) {
      AdoptionStep(s, p);
    }
  }

  lemma OtherKeepsCallOk(states: seq<State>, actions: seq<Action>, p: Proc, j: nat)
    requires Execution(states, actions) && j < |actions| && p < |states[j].procs|
    requires CallOk(states, actions, p, j) && actions[j] != Step(p) && !(actions[j].Begin? && actions[j].p == p)
    ensures p < |states[j + 1].procs| && CallOk(states, actions, p, j + 1)
  {
    assert states[j + 1] == Apply(states[j], actions[j]);
    assert Began(actions, p, j + 1) == Began(actions, p, j);
  }

  lemma {:induction false} CallOkAlways(states: seq<State>, actions: seq<Action>, p: Proc, j: nat)
    requires Execution(states, actions) && j < |states| && p < |states[0].procs| && states[0].procs[p].Idle?
    ensures p < |states[j].procs| && CallOk(states, actions, p, j)
  {
    if j > 0 {
      CallOkAlways(states, actions, p, j - 1);
      if actions[j - 1] == Step(p) {
        StepKeepsCallOk(states, actions, p, j - 1);
      } else if actions[j - 1].Begin? && actions[j - 1].p == p {
        BeginKeepsCallOk(states, actions, p, j - 1);
      } else {
        OtherKeepsCallOk(states, actions, p, j - 1);
      }
    }
  }

  /** Over any run, a call that threw has no step of its own that changed the row. */
  lemma ThrownCallsWroteNothing(states: seq<State>, actions: seq<Action>, p: Proc, j: nat, k: nat)
    requires Execution(states, actions) && j < |states| && p < |states[0].procs| && states[0].procs[p].Idle?
    requires p < |states[j].procs| && states[j].procs[p].Threw?
    requires Began(actions, p, j) <= k < j && actions[k] == Step(p)
    ensures states[k + 1].row == states[k].row
  {
    CallOkAlways(states, actions, p, j);
  }

  /** Over any run, a host's adoption that returned was the adoption of the id it ends with, and owned
      the row under it within the call. */
  lemma AdoptionOwnsItsId(states: seq<State>, actions: seq<Action>, p: Proc, j: nat)
    requires Execution(states, actions) && j < |states| && p < |states[0].procs| && states[0].procs[p].Idle?
    requires p < |states[j].procs| && states[j].procs[p].Returned? && states[j].procs[p].call.Adopt?
    ensures Adopts(actions, p, j, states[j].procs[p].controller)
    ensures OwnedWithin(states, Began(actions, p, j), j, states[j].procs[p].controller)
  {
    CallOkAlways(states, actions, p, j);
  }

  // ---------------------------------------------------------------- how far an expiry can be trusted

  /** A heartbeat moves the expiry back exactly when its clock reading is older than the row's last write. */
  lemma ExpiryMovesBackIff(s: State, p: Proc)
    requires Inv(s) && Enabled(s, Step(p)) && s.procs[p].AtExtend?
    requires Apply(s, Step(p)).procs[p].Returned?
    ensures Apply(s, Step(p)).row.value.expiresAt < s.row.value.expiresAt <==> s.procs[p].now < s.row.value.updatedAt
  {
    assert PcOk(s, p);
  }

  /** A heartbeat of the owner on a row that has expired by the clock still succeeds exactly when its own
      clock reading is before the row's expiry. */
  lemma RevivesExpiredIff(s: State, p: Proc)
    requires Inv(s) && Enabled(s, Step(p)) && s.procs[p].AtExtend?
    requires Owns(s.row, s.procs[p].controller) && !Active(s.row, s.clock)
    ensures s.procs[p].now < s.row.value.expiresAt <==>
              Apply(s, Step(p)).procs[p].Returned? && Apply(s, Step(p)).row.value.updatedAt == s.procs[p].now
    ensures s.procs[p].now >= s.row.value.expiresAt ==> Apply(s, Step(p)).row == s.row
  {
    assert PcOk(s, p);
  }

  /** Over any run a stored lease ends exactly one expiry after its last write, which is in the past. */
  lemma LeaseEndsOneExpiryAfterItsWrite(states: seq<State>, actions: seq<Action>, i: nat)
    requires Execution(states, actions) && i < |states| && states[i].row.Some?
    ensures states[i].row.value.expiresAt == states[i].row.value.updatedAt + LEASE_EXPIRY_MS
    ensures states[i].row.value.expiresAt <= states[i].clock + LEASE_EXPIRY_MS
  {
    InvAlways(states, actions, i);
  }

  /** A run grown by one action. */
  lemma Then(states: seq<State>, actions: seq<Action>, a: Action) returns (longer: seq<State>, more: seq<Action>)
    requires Execution(states, actions) && Enabled(states[|actions|], a)
    ensures Execution(longer, more) && more == actions + [a]
    ensures longer[0] == states[0] && longer[|actions|] == states[|actions|]
    ensures longer[|more|] == Apply(states[|actions|], a)
  {
    longer, more := states + [Apply(states[|actions|], a)], actions + [a];
  }

  lemma AcquireThenOverlap(driver: Driver, c: Controller, u: string) returns (states: seq<State>, actions: seq<Action>)
    ensures Execution(states, actions) && states[0] == State(driver, 0, None, None, [Idle, Idle])
    ensures states[|actions|]
         == State(driver, 0, Some(Fresh(c, u, 0)), None, [BeatClock(Plain, c), AtExtend(Plain, c, 0)])
  {
    states, actions := [State(driver, 0, None, None, [Idle, Idle])], [];
    states, actions := Then(states, actions, Begin(0, Acquire(c, u)));
    states, actions := Then(states, actions, Step(0));
    states, actions := Then(states, actions, Step(0));
    states, actions := Then(states, actions, Begin(1, Heartbeat(c)));
    states, actions := Then(states, actions, Step(1));
    states, actions := Then(states, actions, Begin(0, Heartbeat(c)));
  }

  /** Two overlapping heartbeats of one controller: the later one extends first, that lease then
      expires, and the stale one still succeeds and moves the expiry back. */
  lemma StaleHeartbeatRevivesAndShortens(driver: Driver, c: Controller, u: string)
    returns (states: seq<State>, actions: seq<Action>, before: State, after: State)
    ensures Execution(states, actions) && states[0] == State(driver, 0, None, None, [Idle, Idle])
    ensures |actions| > 0 && before == states[|actions| - 1] && after == states[|actions|]
    ensures actions[|actions| - 1] == Step(1) && |after.procs| == 2 && after.procs[1] == Returned(Plain, c)
    ensures before.row.Some? && !Active(before.row, before.clock)
    ensures after.row.Some? && after.row.value.expiresAt < before.row.value.expiresAt
  {
    states, actions := AcquireThenOverlap(driver, c, u);
    states, actions := Then(states, actions, Tick(10000));
    states, actions := Then(states, actions, Step(0));
    states, actions := Then(states, actions, Step(0));
    states, actions := Then(states, actions, Tick(50000));
    before := states[|actions|];
    states, actions := Then(states, actions, Step(1));
    after := states[|actions|];
  }
}

/** Marking a workspace RESTORE_FAILED: the two compare-and-set writers
    (packages/session-persistence-postgres/src/repository.ts), the age judgments that call the
    first one (apps/control-plane/src/handlers.ts), and the state transitions they race with
    (apps/control-plane/src/prod-adapters.ts). */
module RestoreMarks {
  import opened Wrappers

  const FAST_FAIL_INSTANCE_GRACE_MS := 120000
  const STALE_STARTING_THRESHOLD_MS := 600000

  datatype RuntimeState =
    | STOPPED | STARTING | RESTORING | READY | BUSY | CHECKPOINTING | STOPPING
    | ERROR | RESTORE_FAILED | CHECKPOINT_FAILED

  /** `updatedAt` is absent when it does not parse. */
  datatype Workspace = Workspace(state: RuntimeState, lastError: Option<string>, updatedAt: Option<int>)

  predicate ComingUp(state: RuntimeState) {
    state.STARTING? || state.RESTORING?
  }

  // ---------------------------------------------------------------- the writers

  function MarkIfStarting(row: Option<Workspace>, reason: string, now: int): Option<Workspace> {
    if row.Some? && ComingUp(row.value.state) then Some(Workspace(RESTORE_FAILED, Some(reason), Some(now))) else row
  }

  /** The condition of `recordRestoreErrorIfFailed`. */
  predicate TakesReason(row: Option<Workspace>) {
    row.Some? && (ComingUp(row.value.state) || (row.value.state.RESTORE_FAILED? && row.value.lastError.None?))
  }

  function RecordIfFailed(row: Option<Workspace>, reason: string, now: int): Option<Workspace> {
    if TakesReason(row) then Some(Workspace(RESTORE_FAILED, Some(reason), Some(now))) else row
  }

  function Transition(row: Option<Workspace>, from: RuntimeState, to: RuntimeState, now: int): Option<Workspace> {
    if row.Some? && row.value.state == from then Some(row.value.(state := to, updatedAt := Some(now))) else row
  }

  /** The locked row of each transaction, read and then written in place. */
  class WorkspaceRow {
    var row: Option<Workspace>

    constructor (row: Option<Workspace>)
      ensures this.row == row
    {
      this.row := row;
    }

    method MarkRestoreFailedIfStarting(reason: string, now: int) returns (marked: bool)
      modifies this
      ensures row == MarkIfStarting(old(row), reason, now)
      ensures marked <==> old(row).Some? && old(row).value.state in {STARTING, RESTORING}
      ensures row == if marked then Some(Workspace(RESTORE_FAILED, Some(reason), Some(now))) else old(row)
    {
      if row.None? {
        return false;
      }
      var current := row.value.state;
      if current != STARTING && current != RESTORING {
        return false;
      }
      row := Some(row.value.(state := RESTORE_FAILED, lastError := Some(reason), updatedAt := Some(now)));
      marked := true;
    }

    method RecordRestoreErrorIfFailed(reason: string, now: int) returns (marked: bool)
      modifies this
      ensures row == RecordIfFailed(old(row), reason, now)
      ensures marked <==> old(row).Some? && (|| old(row).value.state in {STARTING, RESTORING}
                                             || (&& old(row).value.state == RESTORE_FAILED
                                                 && old(row).value.lastError == None))
      ensures row == if marked then Some(Workspace(RESTORE_FAILED, Some(reason), Some(now))) else old(row)
    {
      if row.None? {
        return false;
      }
      var current, existing := row.value.state, row.value.lastError;
      if current == STARTING || current == RESTORING {
        row := Some(row.value.(state := RESTORE_FAILED, lastError := Some(reason), updatedAt := Some(now)));
        return true;
      }
      if current == RESTORE_FAILED && existing.None? {
        row := Some(row.value.(lastError := Some(reason), updatedAt := Some(now)));
        return true;
      }
      marked := false;
    }

    /** `SqlTransactionalStateStore.apply`; a refusal reports the state it found. */
    method Apply(from: RuntimeState, to: RuntimeState, now: int) returns (refused: Option<RuntimeState>)
      modifies this
      ensures row == Transition(old(row), from, to, now)
      ensures refused == if old(row).None? then Some(STOPPED)
                         else if old(row).value.state == from then None else Some(old(row).value.state)
      ensures refused.Some? ==> row == old(row)
      ensures refused.None? ==> row == Some(Workspace(to, old(row).value.lastError, Some(now)))
    {
      if row.None? {
        return Some(STOPPED);
      }
      if row.value.state != from {
        return Some(row.value.state);
      }
      row := Some(row.value.(state := to, updatedAt := Some(now)));
      refused := None;
    }
  }

  // ---------------------------------------------------------------- the judgment

  /** What one look at the instance says; only the first two are definitive. */
  datatype Probe = Missing | Failed | Unready | Unknown

  datatype Cause = Definitive(probe: Probe) | Stale

  predicate IsDefinitive(probe: Probe) {
    probe.Missing? || probe.Failed?
  }

  function Age(w: Workspace, now: int): int
    requires w.updatedAt.Some?
  {
    now - w.updatedAt.value
  }

  /** `failStaleStartingWorkspace` probes the instance. */
  predicate Probes(w: Workspace, now: int) {
    ComingUp(w.state) && w.updatedAt.Some? && Age(w, now) > FAST_FAIL_INSTANCE_GRACE_MS
  }

  /** Why it goes on to mark the row, once it has probed. */
  function Verdict(w: Workspace, now: int, probe: Probe): Option<Cause>
    requires Probes(w, now)
  {
    if IsDefinitive(probe) then Some(Definitive(probe))
    else if Age(w, now) <= STALE_STARTING_THRESHOLD_MS then None
    else Some(Stale)
  }

  /** The steps of an interleaved judgment go on to mark exactly a row that is coming up and is older
      than ten minutes, or older than two with a definitive probe. */
  lemma JudgedToFailIff(w: Workspace, now: int, probe: Probe)
    ensures Probes(w, now) && Verdict(w, now, probe).Some? <==>
              && ComingUp(w.state) && w.updatedAt.Some?
              && (now - w.updatedAt.value > 600000 || (now - w.updatedAt.value > 120000 && IsDefinitive(probe)))
    ensures Probes(w, now) && Verdict(w, now, probe) == Some(Stale) ==> now - w.updatedAt.value > 600000
  {
  }

  /** The whole judgment with nothing interfering: it fails the row exactly when the row is coming up
      and is either older than ten minutes or older than two with a definitive probe. */
  method FailStaleStartingWorkspace(store: WorkspaceRow, w: Workspace, now: int, probe: Probe, reason: string)
    returns (served: Workspace)
    requires store.row == Some(w)
    modifies store
    ensures var fails :=
              ComingUp(w.state) && w.updatedAt.Some?
              && (|| now - w.updatedAt.value > 600000
                  || (now - w.updatedAt.value > 120000 && (probe.Missing? || probe.Failed?)));
            && served == (if fails then Workspace(RESTORE_FAILED, Some(reason), Some(now)) else w)
            && store.row == Some(served)
  {
    served := w;
    if !ComingUp(w.state) || w.updatedAt.None? {
      return;
    }
    var age := now - w.updatedAt.value;
    var judged := false;
    if age > FAST_FAIL_INSTANCE_GRACE_MS && IsDefinitive(probe) {
      judged := true;
    } else if age > STALE_STARTING_THRESHOLD_MS {
      judged := true;
    }
    if judged {
      var marked := store.MarkRestoreFailedIfStarting(reason, now);
      served := if store.row.Some? then store.row.value else w;
    }
  }

  // ---------------------------------------------------------------- every interleaving

  type Proc = nat

  /** `snapshot` is the row as the request loaded it, `seen` its version then, `judgedAt` the clock
      when its age was taken. */
  datatype Pc =
    | Idle
    | Judging(snapshot: Workspace, seen: nat)
    | Probing(snapshot: Workspace, seen: nat, judgedAt: int)
    | Marking(snapshot: Workspace, seen: nat, judgedAt: int, cause: Cause)
    | Reading(snapshot: Workspace)
    | Serving(workspace: Workspace)
    | Recording(reason: string)

  /** `version` counts the row's writes; it is no column, only a way to speak of "the same row". */
  datatype State = State(clock: int, row: Option<Workspace>, version: nat, procs: seq<Pc>)

  datatype Action =
    | Tick(ms: nat)
    | Load(p: Proc)
    | Step(p: Proc, probe: Probe, reason: string)
    | FailOpen(p: Proc, reason: string)                      // an open that failed in the request
    | Elsewhere(row: Option<Workspace>)                      // any other writer: transitions, patches, deletion

  predicate Enabled(s: State, a: Action) {
    match a
    case Tick(_) => true
    case Load(p) => p < |s.procs| && s.procs[p].Idle? && s.row.Some?
    case Step(p, _, _) => p < |s.procs| && !s.procs[p].Idle?
    case FailOpen(p, _) => p < |s.procs| && s.procs[p].Idle?
    case Elsewhere(_) => true
  }

  function NextPc(s: State, pc: Pc, probe: Probe): Pc {
    match pc
    case Judging(w, seen) => if Probes(w, s.clock) then Probing(w, seen, s.clock) else Serving(w)
    case Probing(w, seen, judgedAt) =>
      if !Probes(w, judgedAt) then Serving(w)
      else
        var verdict := Verdict(w, judgedAt, probe);
        if verdict.Some? then Marking(w, seen, judgedAt, verdict.value) else Serving(w)
    case Marking(w, _, _, _) => Reading(w)
    case Reading(w) => Serving(if s.row.Some? then s.row.value else w)
    case Serving(_) => Idle
    case Recording(_) => Idle
    case Idle => Idle
  }

  /** The row after a step of a process at `pc`. */
  function NextRow(s: State, pc: Pc, reason: string): Option<Workspace> {
    if pc.Marking? then MarkIfStarting(s.row, reason, s.clock)
    else if pc.Recording? then RecordIfFailed(s.row, pc.reason, s.clock)
    else s.row
  }

  predicate Writes(s: State, pc: Pc) {
    || (pc.Marking? && s.row.Some? && ComingUp(s.row.value.state))
    || (pc.Recording? && TakesReason(s.row))
  }

  function Apply(s: State, a: Action): State
    requires Enabled(s, a)
  {
    match a
    case Tick(ms) => s.(clock := s.clock + ms)
    case Load(p) => s.(procs := s.procs[p := Judging(s.row.value, s.version)])
    case Step(p, probe, reason) =>
      var pc := s.procs[p];
      State(s.clock, NextRow(s, pc, reason), s.version + (if Writes(s, pc) then 1 else 0),
            s.procs[p := NextPc(s, pc, probe)])
    case FailOpen(p, reason) => s.(procs := s.procs[p := Recording(reason)])
    case Elsewhere(row) => s.(row := row, version := s.version + 1)
  }

  /** The failure writers enter RESTORE_FAILED only from STARTING or RESTORING, never touch any other
      state, and on a row already RESTORE_FAILED only ever fill in a missing reason. */
  lemma FailureWritersAreSafe(s: State, a: Action)
    requires Enabled(s, a) && !a.Elsewhere? && Apply(s, a).row != s.row
    ensures s.row.Some? && Apply(s, a).row.Some?
    ensures Apply(s, a).row.value.state.RESTORE_FAILED? && Apply(s, a).row.value.lastError.Some?
    ensures ComingUp(s.row.value.state) || (s.row.value.state.RESTORE_FAILED? && s.row.value.lastError.None?)
    ensures a.Step? && (s.procs[a.p].Marking? ==> ComingUp(s.row.value.state))
    ensures Apply(s, a).version == s.version + 1
  {
  }

  /** A mark or a record that writes leaves exactly its reason, on a row that was coming up, or, for a
      record, on a failed one without a reason; any other row is left as it is. */
  lemma WritersLeaveTheirReason(s: State, p: Proc, probe: Probe, reason: string)
    requires p < |s.procs| && (s.procs[p].Marking? || s.procs[p].Recording?)
    ensures var pc, before, after := s.procs[p], s.row, Apply(s, Step(p, probe, reason)).row;
            if before.Some? && (|| before.value.state in {STARTING, RESTORING}
                                || (&& pc.Recording? && before.value.state == RESTORE_FAILED
                                    && before.value.lastError == None))
            then
              after == Some(Workspace(RESTORE_FAILED, Some(if pc.Marking? then reason else pc.reason), Some(s.clock)))
            else after == before
  {
  }

  /** `n` steps of one request, and of nobody else. */
  function Alone(s: State, p: Proc, probe: Probe, reason: string, n: nat): State
    decreases n
  {
    if n == 0 || !Enabled(s, Step(p, probe, reason)) then s
    else Alone(Apply(s, Step(p, probe, reason)), p, probe, reason, n - 1)
  }

  /** The interleaved steps, undisturbed: two looks and a mark fail the row, and serve it failed, exactly when
      it is coming up and older than ten minutes, or than two with a missing or failed instance. */
  lemma JudgmentAlone(s: State, p: Proc, probe: Probe, reason: string)
    requires Enabled(s, Load(p))
    ensures var w := s.row.value;
            var loaded := Apply(s, Load(p));
            if && w.state in {STARTING, RESTORING} && w.updatedAt.Some?
               && (|| s.clock - w.updatedAt.value > 600000
                   || (s.clock - w.updatedAt.value > 120000 && probe in {Missing, Failed}))
            then
              var t := Alone(loaded, p, probe, reason, 4);
              var failed := Workspace(RESTORE_FAILED, Some(reason), Some(s.clock));
              t.row == Some(failed) && t.procs[p] == Serving(failed)
            else
              var t := Alone(loaded, p, probe, reason, if Probes(w, s.clock) then 2 else 1);
              t.row == s.row && t.procs[p] == Serving(w)
  {
    var w, loaded := s.row.value, Apply(s, Load(p));
    var one := Apply(loaded, Step(p, probe, reason));
    assert Alone(loaded, p, probe, reason, 1) == one;
    if Probes(w, s.clock) {
      var two := Apply(one, Step(p, probe, reason));
      assert Alone(loaded, p, probe, reason, 2) == Alone(one, p, probe, reason, 1) == two;
      if Verdict(w, s.clock, probe).Some? {
        var three := Apply(two, Step(p, probe, reason));
        assert Alone(loaded, p, probe, reason, 4) == Alone(one, p, probe, reason, 3)
            == Alone(two, p, probe, reason, 2) == Alone(three, p, probe, reason, 1);
      }
    }
  }

  ghost predicate Execution(states: seq<State>, actions: seq<Action>) {
    && |states| == |actions| + 1
    && (forall p: Proc :: p < |states[0].procs| ==> states[0].procs[p].Idle?)
    && forall i :: 0 <= i < |actions| ==>
         Enabled(states[i], actions[i]) && states[i + 1] == Apply(states[i], actions[i])
  }

  /** A READY row, or a reason on a failed row, survives any number of marks and records. */
  lemma {:induction false} SettledRowsSurvive(states: seq<State>, actions: seq<Action>, i: nat, j: nat)
    requires Execution(states, actions) && i <= j < |states| && states[i].row.Some?
    requires var w := states[i].row.value; !ComingUp(w.state) && !(w.state.RESTORE_FAILED? && w.lastError.None?)
    requires forall k :: i <= k < j ==> !actions[k].Elsewhere?
    ensures states[j].row == states[i].row
  {
    if i < j {
      SettledRowsSurvive(states, actions, i, j - 1);
      assert states[j - 1 + 1] == Apply(states[j - 1], actions[j - 1]);
    }
  }

  // ---------------------------------------------------------------- what a mark goes by

  /** The row was `w` with version `seen` at some state up to `j`. */
  ghost predicate WasStored(states: seq<State>, j: nat, w: Workspace, seen: nat)
    requires j < |states|
  {
    exists i: nat :: i <= j && states[i].row == Some(w) && states[i].version == seen
  }

  ghost predicate WasRow(states: seq<State>, j: nat, w: Workspace)
    requires j < |states|
  {
    exists i: nat :: i <= j && states[i].row == Some(w)
  }

  /** What each step of a judgment knows about the row it loaded. */
  ghost predicate PcOk(states: seq<State>, j: nat, p: Proc)
    requires j < |states| && p < |states[j].procs|
  {
    var pc, s := states[j].procs[p], states[j];
    match pc
    case Judging(w, seen) => WasStored(states, j, w, seen)
    case Probing(w, seen, judgedAt) => WasStored(states, j, w, seen) && judgedAt <= s.clock && Probes(w, judgedAt)
    case Marking(w, seen, judgedAt, cause) =>
      && WasStored(states, j, w, seen) && judgedAt <= s.clock && Probes(w, judgedAt)
      && (Age(w, judgedAt) <= STALE_STARTING_THRESHOLD_MS ==> cause.Definitive? && IsDefinitive(cause.probe))
    case Reading(w) => WasRow(states, j, w)
    case Serving(w) => WasRow(states, j, w)
    case _ => true
  }

  lemma WasStoredStays(states: seq<State>, j: nat, w: Workspace, seen: nat)
    requires j + 1 < |states| && WasStored(states, j, w, seen)
    ensures WasStored(states, j + 1, w, seen) && WasRow(states, j + 1, w)
  {
  }

  lemma WasRowStays(states: seq<State>, j: nat, w: Workspace)
    requires j + 1 < |states| && WasRow(states, j, w)
    ensures WasRow(states, j + 1, w)
  {
  }

  lemma StepKeepsPcOk(states: seq<State>, actions: seq<Action>, j: nat, p: Proc)
    requires Execution(states, actions) && j < |actions| && p < |states[j].procs| && PcOk(states, j, p)
    ensures p < |states[j + 1].procs| && PcOk(states, j + 1, p)
  {
    var s, t := states[j], states[j + 1];
    assert t == Apply(s, actions[j]);
    var pc := s.procs[p];
    if pc.Judging? || pc.Probing? || pc.Marking? {
      WasStoredStays(states, j, pc.snapshot, pc.seen);
    }
    if pc.Reading? || pc.Serving? {
      WasRowStays(states, j, if pc.Reading? then pc.snapshot else pc.workspace);
      assert s.row.Some? ==> states[j].row == Some(s.row.value);
    }
    if actions[j] == Load(p) {
      assert states[j].row == Some(s.row.value) && states[j].version == s.version;
      assert WasStored(states, j + 1, s.row.value, s.version);
    }
  }

  lemma {:induction false} PcOkAlways(states: seq<State>, actions: seq<Action>, j: nat, p: Proc)
    requires Execution(states, actions) && j < |states| && p < |states[0].procs|
    ensures p < |states[j].procs| && PcOk(states, j, p)
  {
    if j > 0 {
      PcOkAlways(states, actions, j - 1, p);
      StepKeepsPcOk(states, actions, j - 1, p);
    }
  }

  /** Every mark goes by a row that was stored, coming up, and more than two minutes old when judged;
      if it was not more than ten, the probe was definitive. */
  lemma MarksAreJudged(states: seq<State>, actions: seq<Action>, j: nat, p: Proc)
    requires Execution(states, actions) && j < |states| && p < |states[0].procs|
    requires p < |states[j].procs| && states[j].procs[p].Marking?
    ensures var pc := states[j].procs[p];
            && WasStored(states, j, pc.snapshot, pc.seen)
            && ComingUp(pc.snapshot.state) && pc.snapshot.updatedAt.Some?
            && Age(pc.snapshot, states[j].clock) >= Age(pc.snapshot, pc.judgedAt) > FAST_FAIL_INSTANCE_GRACE_MS
            && (Age(pc.snapshot, pc.judgedAt) <= STALE_STARTING_THRESHOLD_MS ==>
                 pc.cause.Definitive? && IsDefinitive(pc.cause.probe))
  {
    PcOkAlways(states, actions, j, p);
  }

  /** What a request serves, marked or not, is a row that was stored: never one it made up. */
  lemma ServedRowWasStored(states: seq<State>, actions: seq<Action>, j: nat, p: Proc)
    requires Execution(states, actions) && j < |states| && p < |states[0].procs|
    requires p < |states[j].procs| && states[j].procs[p].Serving?
    ensures exists i: nat :: i <= j && states[i].row == Some(states[j].procs[p].workspace)
  {
    PcOkAlways(states, actions, j, p);
  }

  lemma {:induction false} VersionsNeverRepeat(states: seq<State>, actions: seq<Action>, i: nat, j: nat)
    requires Execution(states, actions) && i <= j < |states|
    ensures states[i].version <= states[j].version
    ensures states[i].version == states[j].version ==> states[i].row == states[j].row
  {
    if i < j {
      VersionsNeverRepeat(states, actions, i, j - 1);
      assert states[j - 1 + 1] == Apply(states[j - 1], actions[j - 1]);
    }
  }

  /** The action writes the row: another writer, or a mark or record that takes effect. */
  predicate WritesRow(s: State, a: Action)
    requires Enabled(s, a)
  {
    a.Elsewhere? || (a.Step? && Writes(s, s.procs[a.p]))
  }

  lemma {:induction false} UnwrittenKeepsVersion(states: seq<State>, actions: seq<Action>, i: nat, j: nat)
    requires Execution(states, actions) && i <= j < |states|
    ensures states[j].version == states[i].version
            <==> forall k :: i <= k < j ==> Enabled(states[k], actions[k]) && !WritesRow(states[k], actions[k])
  {
    if i < j {
      UnwrittenKeepsVersion(states, actions, i, j - 1);
      VersionsNeverRepeat(states, actions, i, j - 1);
      assert Enabled(states[j - 1], actions[j - 1]) && states[j - 1 + 1] == Apply(states[j - 1], actions[j - 1]);
    }
  }

  /** A mark is about the very row it judged exactly when nobody has written the row since it was loaded,
      at state `i`; and then it takes effect, on a row that is more than two minutes old. */
  lemma MarkHitsJudgedRowIff(states: seq<State>, actions: seq<Action>, i: nat, j: nat, p: Proc)
    requires Execution(states, actions) && i <= j < |states| && p < |states[0].procs| && p < |states[j].procs|
    requires states[j].procs[p].Marking? && states[i].version == states[j].procs[p].seen
    ensures states[j].version == states[j].procs[p].seen
            <==> forall k :: i <= k < j ==> Enabled(states[k], actions[k]) && !WritesRow(states[k], actions[k])
    ensures states[j].version == states[j].procs[p].seen ==>
              && states[j].row == Some(states[j].procs[p].snapshot)
              && Writes(states[j], states[j].procs[p])
              && states[j].procs[p].snapshot.updatedAt.Some?
              && Age(states[j].procs[p].snapshot, states[j].clock) > FAST_FAIL_INSTANCE_GRACE_MS
  {
    var pc := states[j].procs[p];
    MarksAreJudged(states, actions, j, p);
    UnwrittenKeepsVersion(states, actions, i, j);
    var l: nat :| l <= j && states[l].row == Some(pc.snapshot) && states[l].version == pc.seen;
    VersionsNeverRepeat(states, actions, l, j);
  }

  /** A mark whose row was written since fails whatever row is there now exactly when that is coming up,
      without regard to its age, and otherwise leaves it. */
  lemma MarkOfWrittenRowIff(states: seq<State>, actions: seq<Action>, j: nat, p: Proc)
    requires Execution(states, actions) && j < |actions| && p < |states[j].procs|
    requires actions[j].Step? && actions[j].p == p && states[j].procs[p].Marking?
    requires states[j].version != states[j].procs[p].seen
    ensures states[j + 1].row != states[j].row <==> states[j].row.Some? && ComingUp(states[j].row.value.state)
    ensures states[j + 1].row != states[j].row ==>
              states[j + 1].row == Some(Workspace(RESTORE_FAILED, Some(actions[j].reason), Some(states[j].clock)))
  {
    assert states[j + 1] == Apply(states[j], actions[j]);
  }

  /** The compare-and-set is on the state alone: a judgment of a stale generation fails the fresh one
      that has replaced it. */
  lemma StaleJudgmentFailsFreshGeneration() returns (states: seq<State>, actions: seq<Action>)
    ensures Execution(states, actions) && |actions| == 6
    ensures states[5].row == Some(Workspace(STARTING, None, Some(700000))) && states[5].clock == 700000
    ensures states[6].row.Some? && states[6].row.value.state.RESTORE_FAILED?
  {
    var judged, newer := Workspace(STARTING, None, Some(0)), Workspace(STARTING, None, Some(700000));
    actions := [Load(0), Tick(700000), Step(0, Unknown, ""), Step(0, Unknown, ""), Elsewhere(Some(newer)),
                Step(0, Unknown, "stale")];
    states := [
      State(0, Some(judged), 0, [Idle]),
      State(0, Some(judged), 0, [Judging(judged, 0)]),
      State(700000, Some(judged), 0, [Judging(judged, 0)]),
      State(700000, Some(judged), 0, [Probing(judged, 0, 700000)]),
      State(700000, Some(judged), 0, [Marking(judged, 0, 700000, Stale)]),
      State(700000, Some(newer), 1, [Marking(judged, 0, 700000, Stale)]),
      State(700000, Some(Workspace(RESTORE_FAILED, Some("stale"), Some(700000))), 2, [Reading(judged)])];
    StepsFollow(states, actions);
  }

  lemma StepsFollow(states: seq<State>, actions: seq<Action>)
    requires |states| == 7 && |actions| == 6 && forall p: Proc :: p < |states[0].procs| ==> states[0].procs[p].Idle?
    requires Enabled(states[0], actions[0]) && states[1] == Apply(states[0], actions[0])
    requires Enabled(states[1], actions[1]) && states[2] == Apply(states[1], actions[1])
    requires Enabled(states[2], actions[2]) && states[3] == Apply(states[2], actions[2])
    requires Enabled(states[3], actions[3]) && states[4] == Apply(states[3], actions[3])
    requires Enabled(states[4], actions[4]) && states[5] == Apply(states[4], actions[4])
    requires Enabled(states[5], actions[5]) && states[6] == Apply(states[5], actions[5])
    ensures Execution(states, actions)
  {
    forall i | 0 <= i < 6 ensures Enabled(states[i], actions[i]) && states[i + 1] == Apply(states[i], actions[i]) {
      assert i == 0 || i == 1 || i == 2 || i == 3 || i == 4 || i == 5;
    }
  }
}

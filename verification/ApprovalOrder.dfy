/** Decisions and asks of the approval bridge (apps/agent-host/src/turn.ts) with anything in between:
    what a parked decision and a pending ask survive, when the order of the two does not matter, and
    when one decision can come to settle two asks. */
module ApprovalOrder {
  import opened Wrappers
  import opened Approvals
  import opened ApprovalRaces

  // ---------------------------------------------------------------- what happens in between

  /** The event neither requests `call` again nor decides it. */
  predicate Spares(links: Links, e: Event, call: string) {
    match e
    case Asked(_, _, _) => true
    case Requested(_, c, _) => c != Some(call)
    case Aborted(_) => true
    case Decided(x, _) => x != call && !(x in links && links[x].call == Some(call))
  }

  ghost predicate AllSpare(b: Bridge, events: seq<Event>, call: string) {
    forall i :: 0 <= i < |events| ==> Spares(After(b, events[..i]).links, events[i], call)
  }

  predicate Leaves(events: seq<Event>, k: nat) {
    Aborted(k) !in events
  }

  lemma AllSpareFront(b: Bridge, events: seq<Event>, call: string)
    requires AllSpare(b, events, call) && events != []
    ensures AllSpare(b, events[..|events| - 1], call)
    ensures Spares(After(b, events[..|events| - 1]).links, events[|events| - 1], call)
  {
    var front := events[..|events| - 1];
    assert forall i :: 0 <= i < |front| ==> front[..i] == events[..i] && front[i] == events[i];
  }

  // ---------------------------------------------------------------- a parked decision stays parked

  function ParkedFor(b: Bridge, call: string): Option<Decision> {
    if call in b.early then Some(b.early[call]) else None
  }

  /** Whatever is parked for a call, or that nothing is, outlasts any events that spare the call. */
  lemma {:induction false} ParkedStays(b: Bridge, events: seq<Event>, call: string)
    requires AllSpare(b, events, call)
    ensures ParkedFor(After(b, events), call) == ParkedFor(b, call)
  {
    if events != [] {
      AllSpareFront(b, events, call);
      ParkedStays(b, events[..|events| - 1], call);
    }
  }

  // ---------------------------------------------------------------- a pending ask stays pending

  /** Ask `k` pends for `call`. */
  ghost predicate PendsFor(b: Bridge, call: string, k: nat) {
    Inv(b.pool) && call in b.pool.byCall && b.pool.byCall[call] == k
  }

  /** The id of a decision leads to the ask of `call`, and to no ask of a call of its own name. */
  predicate Reaches(b: Bridge, id: string, call: string) {
    Addresses(b, id, call) && (id != call ==> id !in b.pool.byCall)
  }

  lemma TargetIsPendingIff(b: Bridge, id: string, call: string, k: nat)
    requires PendsFor(b, call, k)
    ensures Target(b.pool, b.links, id) == Some(k) <==> Reaches(b, id, call)
  {
    if id in b.links {
      FirstIsOldest(b.pool, b.links[id].session);
    }
  }

  /** A decision that does not decide the call settles something else, or nothing. */
  lemma OtherTarget(b: Bridge, x: string, call: string, k: nat)
    requires Inv(b.pool) && call in b.pool.byCall && b.pool.byCall[call] == k
    requires Spares(b.links, Decided(x, Rejected), call)
    ensures Target(b.pool, b.links, x) != Some(k)
  {
    if x in b.links {
      FirstIsOldest(b.pool, b.links[x].session);
    }
  }

  lemma SettledKeepsOthers(p: Pool, j: nat, outcome: Outcome, via: Option<nat>, call: string, k: nat)
    requires CallsOk(p) && call in p.byCall && p.byCall[call] == k && j != k
    ensures var t := Settled(p, j, outcome, via);
            call in t.byCall && t.byCall[call] == k
  {
  }

  lemma NextKeepsPending(b: Bridge, e: Event, call: string, k: nat)
    requires PendsFor(b, call, k) && Spares(b.links, e, call) && e != Aborted(k)
    ensures PendsFor(Next(b, e), call, k)
  {
    NextKeepsInv(b, e);
    match e
    case Asked(_, _, _) =>
    case Requested(session, c, aborted) =>
      PendKeepsInv(b.pool, session, c);
      SettledKeepsOthers(Pend(b.pool, session, c), |b.pool.asks|, Cancelled, None, call, k);
    case Aborted(j) => SettledKeepsOthers(b.pool, j, Cancelled, None, call, k);
    case Decided(x, outcome) =>
      OtherTarget(b, x, call, k);
      var target := Target(b.pool, b.links, x);
      if target.Some? {
        SettledKeepsOthers(b.pool, target.value, outcome, Some(b.decisions), call, k);
      }
  }

  /** A pending ask outlasts any events that spare its call and do not abort it. */
  lemma {:induction false} PendingStays(b: Bridge, events: seq<Event>, call: string, k: nat)
    requires PendsFor(b, call, k) && AllSpare(b, events, call) && Leaves(events, k)
    ensures PendsFor(After(b, events), call, k)
  {
    if events != [] {
      var front := events[..|events| - 1];
      AllSpareFront(b, events, call);
      PendingStays(b, front, call, k);
      NextKeepsPending(After(b, front), events[|events| - 1], call, k);
    }
  }

  // ---------------------------------------------------------------- the two orders

  lemma {:induction false} AfterConcat(b: Bridge, xs: seq<Event>, ys: seq<Event>)
    ensures After(b, xs + ys) == After(After(b, xs), ys)
    decreases |ys|
  {
    if ys == [] {
      assert xs + ys == xs;
    } else {
      AfterConcat(b, xs, ys[..|ys| - 1]);
      assert (xs + ys)[..|xs + ys| - 1] == xs + ys[..|ys| - 1];
    }
  }

  /** `first`, anything, `last`. */
  lemma AfterBetween(b: Bridge, first: Event, mid: seq<Event>, last: Event)
    ensures After(b, [first] + mid + [last]) == Next(After(Next(b, first), mid), last)
  {
    AfterOneMore(b, [], first);
    assert [] + [first] == [first];
    AfterConcat(b, [first], mid);
    AfterOneMore(b, [first] + mid, last);
  }

  lemma DecisionSettlesIff(b: Bridge, id: string, outcome: Outcome, call: string, k: nat)
    requires PendsFor(b, call, k)
    ensures var asks := Next(b, Decided(id, outcome)).pool.asks;
            k < |asks| && asks[k].outcome == if Reaches(b, id, call) then Some(outcome) else None
  {
    TargetIsPendingIff(b, id, call, k);
    var target := Target(b.pool, b.links, id);
    if target.Some? {
      SettleExtends(b.pool, target.value, outcome, Some(b.decisions));
    }
  }

  lemma AskPends(b: Bridge, session: string, call: string)
    requires Inv(b.pool) && call !in b.early
    ensures PendsFor(Next(b, Requested(session, Some(call), false)), call, |b.pool.asks|)
  {
    NextKeepsInv(b, Requested(session, Some(call), false));
  }

  /** A decision for an ask that has been requested settles it, whatever has happened since, exactly when
      its id leads to the ask as it arrives; otherwise the ask goes on pending. */
  lemma LateDecisionSettlesIff(b: Bridge, id: string, outcome: Outcome, session: string, call: string, mid: seq<Event>)
    requires Inv(b.pool) && call !in b.early && Leaves(mid, |b.pool.asks|)
    requires AllSpare(Next(b, Requested(session, Some(call), false)), mid, call)
    ensures var k := |b.pool.asks|;
            var arrival := After(Next(b, Requested(session, Some(call), false)), mid);
            var after := After(b, [Requested(session, Some(call), false)] + mid + [Decided(id, outcome)]);
            && k < |after.pool.asks|
            && after.pool.asks[k].outcome == if Reaches(arrival, id, call) then Some(outcome) else None
  {
    var k, request := |b.pool.asks|, Requested(session, Some(call), false);
    var asked := Next(b, request);
    AskPends(b, session, call);
    PendingStays(asked, mid, call, k);
    DecisionSettlesIff(After(asked, mid), id, outcome, call, k);
    AfterBetween(b, request, mid, Decided(id, outcome));
  }

  /** A decision that comes first settles the ask, whatever happens until then, exactly when its id led
      to the call as it arrived and it reached no other pending ask; otherwise the ask pends. */
  lemma EarlyDecisionSettlesIff(b: Bridge, id: string, outcome: Outcome, session: string, call: string, mid: seq<Event>)
    requires call !in b.early && AllSpare(Next(b, Decided(id, outcome)), mid, call)
    ensures var decided := After(Next(b, Decided(id, outcome)), mid);
            var after := After(b, [Decided(id, outcome)] + mid + [Requested(session, Some(call), false)]);
            && |after.pool.asks| == |decided.pool.asks| + 1
            && after.pool.asks[|decided.pool.asks|] ==
                 if Addresses(b, id, call) && Target(b.pool, b.links, id).None?
                 then Ask(session, Some(call), Some(outcome), Some(b.decisions))
                 else Ask(session, Some(call), None, None)
  {
    var decided := Next(b, Decided(id, outcome));
    assert ParkedFor(decided, call) ==
           if Addresses(b, id, call) && Target(b.pool, b.links, id).None?
           then Some(Decision(outcome, b.decisions)) else None;
    ParkedStays(decided, mid, call);
    AfterBetween(b, Decided(id, outcome), mid, Requested(session, Some(call), false));
  }

  /** A decision by an id that is not yet linked to the call is lost on it, whenever the asked event
      comes: it is parked where the ask never looks. */
  lemma DecisionBeforeAskedIsLost(b: Bridge, id: string, outcome: Outcome, session: string, call: string,
                                  mid: seq<Event>)
    requires !Addresses(b, id, call) && call !in b.early && AllSpare(Next(b, Decided(id, outcome)), mid, call)
    ensures var k := |After(Next(b, Decided(id, outcome)), mid).pool.asks|;
            var asks := After(b, [Decided(id, outcome)] + mid + [Requested(session, Some(call), false)]).pool.asks;
            |asks| == k + 1 && asks[k] == Ask(session, Some(call), None, None)
  {
    EarlyDecisionSettlesIff(b, id, outcome, session, call, mid);
  }

  /** Before or after its ask, with anything in between that neither requests nor decides the call: if the
      decision after the ask settles it, the decision before does so exactly when its id led to the call
      already, and to no other pending ask.  What lies between may differ in the two orders. */
  lemma OrderDoesNotMatterIff(b: Bridge, id: string, outcome: Outcome, session: string, call: string,
                              mid: seq<Event>, mid': seq<Event>)
    requires Inv(b.pool) && call !in b.pool.byCall && call !in b.early && id !in b.pool.byCall
    requires AllSpare(Next(b, Requested(session, Some(call), false)), mid, call) && Leaves(mid, |b.pool.asks|)
    requires Reaches(After(Next(b, Requested(session, Some(call), false)), mid), id, call)
    requires AllSpare(Next(b, Decided(id, outcome)), mid', call)
    ensures var late := After(b, [Requested(session, Some(call), false)] + mid + [Decided(id, outcome)]).pool.asks;
            var early := After(b, [Decided(id, outcome)] + mid' + [Requested(session, Some(call), false)]).pool.asks;
            var k, j := |b.pool.asks|, |After(Next(b, Decided(id, outcome)), mid').pool.asks|;
            && k < |late| && late[k].outcome == Some(outcome)
            && |early| == j + 1
            && (early[j].outcome == late[k].outcome <==> Addresses(b, id, call) && !LeadsElsewhere(b, id))
  {
    LateDecisionSettlesIff(b, id, outcome, session, call, mid);
    EarlyDecisionSettlesIff(b, id, outcome, session, call, mid');
    if id in b.links {
      FirstIsOldest(b.pool, b.links[id].session);
    }
  }

  // ---------------------------------------------------------------- one decision, two asks

  /** Every number in use is that of a decision that has arrived. */
  ghost predicate NumbersArrived(b: Bridge) {
    && (forall k :: 0 <= k < |b.pool.asks| && b.pool.asks[k].via.Some? ==> b.pool.asks[k].via.value < b.decisions)
    && (forall x :: x in b.early ==> b.early[x].number < b.decisions)
  }

  /** Decision `n` has settled at most one ask or is parked under at most one key, not both. */
  ghost predicate InOnePlace(b: Bridge, n: nat) {
    && n < b.decisions
    && (forall k, l :: 0 <= k < l < |b.pool.asks| && b.pool.asks[k].via == Some(n) ==> b.pool.asks[l].via != Some(n))
    && (forall x, y :: x in b.early && y in b.early && b.early[x].number == b.early[y].number == n ==> x == y)
    && (forall x, k :: x in b.early && b.early[x].number == n && 0 <= k < |b.pool.asks| ==>
          b.pool.asks[k].via != Some(n))
  }

  lemma NextKeepsNumbersArrived(b: Bridge, e: Event)
    requires NumbersArrived(b)
    ensures NumbersArrived(Next(b, e))
  {
    match e
    case Asked(_, _, _) =>
    case Requested(session, call, aborted) =>
      SettleExtends(Pend(b.pool, session, call), |b.pool.asks|, Cancelled, None);
    case Aborted(k) => SettleExtends(b.pool, k, Cancelled, None);
    case Decided(id, outcome) =>
      var target := Target(b.pool, b.links, id);
      if target.Some? {
        SettleExtends(b.pool, target.value, outcome, Some(b.decisions));
      }
  }

  lemma {:induction false} NumbersAlwaysArrived(events: seq<Event>)
    ensures NumbersArrived(After(EMPTY, events))
  {
    if events != [] {
      NumbersAlwaysArrived(events[..|events| - 1]);
      NextKeepsNumbersArrived(After(EMPTY, events[..|events| - 1]), events[|events| - 1]);
    }
  }

  lemma SettledKeepsPlace(b: Bridge, k: nat, outcome: Outcome, via: Option<nat>, n: nat)
    requires InOnePlace(b, n) && via != Some(n)
    ensures InOnePlace(b.(pool := Settled(b.pool, k, outcome, via)), n)
  {
    SettleExtends(b.pool, k, outcome, via);
  }

  lemma NextKeepsPlace(b: Bridge, e: Event, n: nat)
    requires InOnePlace(b, n)
    ensures InOnePlace(Next(b, e), n)
  {
    match e
    case Asked(_, _, _) =>
    case Requested(session, call, aborted) =>
      if !(call.Some? && call.value in b.early) {
        var pended := b.(pool := Pend(b.pool, session, call));
        assert InOnePlace(pended, n);
        SettledKeepsPlace(pended, |b.pool.asks|, Cancelled, None, n);
      }
    case Aborted(k) => SettledKeepsPlace(b, k, Cancelled, None, n);
    case Decided(id, outcome) =>
      var target := Target(b.pool, b.links, id);
      if target.Some? {
        SettledKeepsPlace(b, target.value, outcome, Some(b.decisions), n);
      }
  }

  lemma {:induction false} AfterKeepsPlace(b: Bridge, events: seq<Event>, n: nat)
    requires InOnePlace(b, n)
    ensures InOnePlace(After(b, events), n)
  {
    if events != [] {
      AfterKeepsPlace(b, events[..|events| - 1], n);
      NextKeepsPlace(After(b, events[..|events| - 1]), events[|events| - 1], n);
    }
  }

  /** After these events decision `n` has settled two asks. */
  ghost predicate SettlesTwo(b: Bridge, n: nat, more: seq<Event>) {
    var asks := After(b, more).pool.asks;
    exists k, l :: 0 <= k < l < |asks| && asks[k].via == asks[l].via == Some(n)
  }

  ghost predicate CanSettleTwo(b: Bridge, n: nat) {
    exists more: seq<Event> :: SettlesTwo(b, n, more)
  }

  /** The decision settles nothing on arrival and its id is linked to a call of another name: the guard
      under which it is parked twice. */
  predicate ParksTwice(b: Bridge, id: string) {
    Target(b.pool, b.links, id).None? && id in b.links && NamesCall(b.links[id]) && b.links[id].call.value != id
  }

  lemma OnceParkedOnce(b: Bridge, id: string, outcome: Outcome)
    requires NumbersArrived(b) && !ParksTwice(b, id)
    ensures InOnePlace(Decide(b, id, outcome), b.decisions)
  {
    var target := Target(b.pool, b.links, id);
    if target.Some? {
      SettleExtends(b.pool, target.value, outcome, Some(b.decisions));
    }
  }

  /** Both keys of a decision parked twice are requested, as calls. */
  lemma BothKeysRequested(b: Bridge, id: string, outcome: Outcome) returns (more: seq<Event>)
    requires ParksTwice(b, id)
    ensures SettlesTwo(Decide(b, id, outcome), b.decisions, more)
  {
    var parked, call, k := Decide(b, id, outcome), b.links[id].call.value, |b.pool.asks|;
    var first, second := Requested("", Some(id), false), Requested("", Some(call), false);
    more := [first] + [] + [second];
    AfterBetween(parked, first, [], second);
    var asks := After(parked, more).pool.asks;
    assert asks[k].via == asks[k + 1].via == Some(b.decisions);
  }

  /** A decision can come to settle two asks exactly when it is parked twice. */
  lemma CanSettleTwoIff(b: Bridge, id: string, outcome: Outcome)
    requires NumbersArrived(b)
    ensures CanSettleTwo(Decide(b, id, outcome), b.decisions) <==> ParksTwice(b, id)
  {
    if ParksTwice(b, id) {
      var more := BothKeysRequested(b, id, outcome);
    } else {
      OnceParkedOnce(b, id, outcome);
      forall more: seq<Event> ensures !SettlesTwo(Decide(b, id, outcome), b.decisions, more) {
        AfterKeepsPlace(Decide(b, id, outcome), more, b.decisions);
      }
    }
  }

  /** The same for every reachable state. */
  lemma DecisionCanSettleTwoIff(events: seq<Event>, id: string, outcome: Outcome)
    ensures var b := After(EMPTY, events);
            CanSettleTwo(Decide(b, id, outcome), b.decisions) <==> ParksTwice(b, id)
  {
    NumbersAlwaysArrived(events);
    CanSettleTwoIff(After(EMPTY, events), id, outcome);
  }
}

/** Races between asks and decisions in the approval bridge (apps/agent-host/src/turn.ts): when a
    decision may come before its ask, when it goes to another ask, and when it is lost. */
module ApprovalRaces {
  import opened Wrappers
  import opened Approvals

  // ---------------------------------------------------------------- one ask a decision

  ghost predicate ViaOk(asks: seq<Ask>, decisions: nat) {
    && (forall k :: 0 <= k < |asks| && asks[k].via.Some? ==> asks[k].via.value < decisions)
    && (forall k, l :: 0 <= k < l < |asks| && asks[k].via.Some? ==> asks[k].via != asks[l].via)
  }

  /** Parked decisions whose key is no asked id: unspent, and each under one such key. */
  ghost predicate ParkedOk(b: Bridge) {
    && (forall x :: x in b.early ==> b.early[x].number < b.decisions)
    && (forall x, k :: x in b.early && x !in b.links && 0 <= k < |b.pool.asks| ==>
          b.pool.asks[k].via != Some(b.early[x].number))
    && (forall x, y :: x in b.early && y in b.early && x != y && x !in b.links && y !in b.links ==>
          b.early[x].number != b.early[y].number)
  }

  ghost predicate DecisionsOk(b: Bridge) {
    ViaOk(b.pool.asks, b.decisions) && ParkedOk(b)
  }

  lemma SettledViaOk(b: Bridge, k: nat, outcome: Outcome)
    requires DecisionsOk(b) && Unsettled(b.pool, k)
    ensures DecisionsOk(Bridge(Settled(b.pool, k, outcome, Some(b.decisions)), b.links, b.early, b.decisions + 1))
  {
    SettleExtends(b.pool, k, outcome, Some(b.decisions));
  }

  lemma CancelledViaOk(b: Bridge, k: nat)
    requires DecisionsOk(b)
    ensures DecisionsOk(b.(pool := Settled(b.pool, k, Cancelled, None)))
  {
    SettleExtends(b.pool, k, Cancelled, None);
  }

  lemma ParkedStaysOk(b: Bridge, id: string, outcome: Outcome)
    requires DecisionsOk(b)
    ensures var early := Park(b.early, b.links, id, Decision(outcome, b.decisions));
            DecisionsOk(Bridge(b.pool, b.links, early, b.decisions + 1))
  {
  }

  lemma RequestKeepsDecisionsOk(b: Bridge, session: string, call: Option<string>, aborted: bool)
    requires DecisionsOk(b) && (call.Some? ==> call.value !in b.links)
    ensures DecisionsOk(Request(b, session, call, aborted))
  {
    if !(call.Some? && call.value in b.early) {
      var pended := b.(pool := Pend(b.pool, session, call));
      assert DecisionsOk(pended);
      CancelledViaOk(pended, |b.pool.asks|);
    }
  }

  lemma NextKeepsDecisionsOk(b: Bridge, e: Event)
    requires DecisionsOk(b)
    requires e.Requested? && e.call.Some? ==> e.call.value !in b.links
    ensures DecisionsOk(Next(b, e))
  {
    match e
    case Asked(_, _, _) =>
    case Requested(session, call, aborted) => RequestKeepsDecisionsOk(b, session, call, aborted);
    case Aborted(k) => CancelledViaOk(b, k);
    case Decided(id, outcome) =>
      var target := Target(b.pool, b.links, id);
      if target.Some? {
        SettledViaOk(b, target.value, outcome);
      } else {
        ParkedStaysOk(b, id, outcome);
      }
  }

  /** No tool call's id is also the id of an asked event. */
  ghost predicate IdsApart(events: seq<Event>) {
    forall i, j :: 0 <= i < |events| && 0 <= j < |events| && events[i].Asked? && events[j].Requested? ==>
      events[j].call != Some(events[i].id)
  }

  lemma {:induction false} LinksAreAsked(events: seq<Event>, id: string)
    requires id in After(EMPTY, events).links
    ensures exists i :: 0 <= i < |events| && events[i].Asked? && events[i].id == id
  {
    var before := events[..|events| - 1];
    if id in After(EMPTY, before).links {
      LinksAreAsked(before, id);
      var i :| 0 <= i < |before| && before[i].Asked? && before[i].id == id;
      assert events[i] == before[i];
    }
  }

  lemma {:induction false} DecisionsOkAlways(events: seq<Event>)
    requires IdsApart(events)
    ensures DecisionsOk(After(EMPTY, events))
  {
    if events != [] {
      var before, e := events[..|events| - 1], events[|events| - 1];
      DecisionsOkAlways(before);
      if e.Requested? && e.call.Some? && e.call.value in After(EMPTY, before).links {
        LinksAreAsked(before, e.call.value);
      }
      NextKeepsDecisionsOk(After(EMPTY, before), e);
    }
  }

  /** Over any run in which call ids and asked ids stay apart, a decision settles at most one ask,
      whether it settles it on arrival or waits for it. */
  lemma EachDecisionSettlesOneAsk(events: seq<Event>, k: nat, l: nat)
    requires IdsApart(events) && k < l < |After(EMPTY, events).pool.asks|
    requires After(EMPTY, events).pool.asks[k].via.Some?
    ensures After(EMPTY, events).pool.asks[l].via != After(EMPTY, events).pool.asks[k].via
  {
    DecisionsOkAlways(events);
  }

  lemma AfterOneMore(b: Bridge, events: seq<Event>, e: Event)
    ensures After(b, events + [e]) == Next(After(b, events), e)
  {
    assert (events + [e])[..|events|] == events;
  }

  /** With an asked id that is also a call id, one early decision settles two asks. */
  lemma OverlappingIdsSettleTwo(outcome: Outcome) returns (events: seq<Event>)
    ensures var asks := After(EMPTY, events).pool.asks;
            |asks| == 2 && asks[0].outcome == asks[1].outcome == Some(outcome) && asks[0].via == asks[1].via == Some(0)
  {
    var e0, e1 := [Asked("a", "s", Some("c"))], Decided("a", outcome);
    events := e0 + [e1] + [Requested("s", Some("c"), false)] + [Requested("s", Some("a"), false)];
    AfterOneMore(EMPTY, [], e0[0]);
    assert [] + [e0[0]] == e0;
    AfterOneMore(EMPTY, e0, e1);
    AfterOneMore(EMPTY, e0 + [e1], Requested("s", Some("c"), false));
    AfterOneMore(EMPTY, e0 + [e1] + [Requested("s", Some("c"), false)], Requested("s", Some("a"), false));
  }

  // ---------------------------------------------------------------- before or after the ask

  /** The id reaches a pending ask of `call`: it is the call id, or an asked id linked to it. */
  predicate Addresses(b: Bridge, id: string, call: string) {
    id == call || (id in b.links && b.links[id].call == Some(call) && call != "")
  }

  /** The id has been asked, and its link leads to some other pending ask. */
  ghost predicate LeadsElsewhere(b: Bridge, id: string) {
    && id in b.links
    && ((NamesCall(b.links[id]) && CallPends(b.pool, b.links[id].call.value))
        || exists j: nat :: Anonymous(b.pool, b.links[id].session, j))
  }

  /** A decision for a tool call's ask that comes after the ask settles it; the same decision before
      the ask gives the same result exactly when its asked id leads to no other pending ask. */
  lemma EarlyEqualsLateIff(b: Bridge, id: string, outcome: Outcome, session: string, call: string)
    requires Inv(b.pool) && call !in b.pool.byCall && call !in b.early && id !in b.pool.byCall
    requires Addresses(b, id, call)
    ensures var k := |b.pool.asks|;
            var request, decision := Requested(session, Some(call), false), Decided(id, outcome);
            var late, early := Next(Next(b, request), decision).pool.asks, Next(Next(b, decision), request).pool.asks;
            && |late| == |early| == k + 1
            && late[k] == Ask(session, Some(call), Some(outcome), Some(b.decisions))
            && (early[k] == late[k] <==> !LeadsElsewhere(b, id))
  {
    if id in b.links {
      FirstIsOldest(b.pool, b.links[id].session);
    }
    AskThenDecide(b, id, outcome, session, call);
    DecideThenAsk(b, id, outcome, session, call);
  }

  lemma AskThenDecide(b: Bridge, id: string, outcome: Outcome, session: string, call: string)
    requires Inv(b.pool) && call !in b.pool.byCall && call !in b.early && id !in b.pool.byCall
    requires Addresses(b, id, call)
    ensures var late := Next(Next(b, Requested(session, Some(call), false)), Decided(id, outcome)).pool.asks;
            late == b.pool.asks + [Ask(session, Some(call), Some(outcome), Some(b.decisions))]
  {
    var asked := Next(b, Requested(session, Some(call), false));
    assert asked.pool == Pend(b.pool, session, Some(call));
    assert CallPends(asked.pool, call);
    assert Target(asked.pool, asked.links, id) == Some(|b.pool.asks|);
    SettleExtends(asked.pool, |b.pool.asks|, outcome, Some(b.decisions));
  }

  lemma DecideThenAsk(b: Bridge, id: string, outcome: Outcome, session: string, call: string)
    requires Inv(b.pool) && call !in b.pool.byCall && call !in b.early && id !in b.pool.byCall
    requires Addresses(b, id, call)
    ensures var early := Next(Next(b, Decided(id, outcome)), Requested(session, Some(call), false)).pool.asks;
            && |early| == |b.pool.asks| + 1
            && early[|b.pool.asks|] == if Target(b.pool, b.links, id).None?
                                       then Ask(session, Some(call), Some(outcome), Some(b.decisions))
                                       else Ask(session, Some(call), None, None)
  {
    var target := Target(b.pool, b.links, id);
    if target.Some? {
      SettleExtends(b.pool, target.value, outcome, Some(b.decisions));
    }
  }

  /** For an ask without a call id there is no early decision at all: known and reported as such, it
      is parked under the asked id, and the ask pends. */
  lemma EarlyDecisionForCalllessAskIsLost(b: Bridge, id: string, outcome: Outcome, session: string)
    requires Inv(b.pool) && id !in b.pool.byCall && forall j: nat :: !Anonymous(b.pool, session, j)
    ensures var k := |b.pool.asks|;
            var decided := Next(Next(b, Asked(id, session, None)), Decided(id, outcome));
            var asks := Next(decided, Requested(session, None, false)).pool.asks;
            && id in decided.early && decided.early[id].outcome == outcome
            && |asks| == k + 1 && asks[k] == Ask(session, None, None, None)
  {
    FirstIsOldest(b.pool, session);
    var asked := Next(b, Asked(id, session, None));
    assert Target(asked.pool, asked.links, id) == None;
  }
}

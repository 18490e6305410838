/** The approval bridge of the agent host (apps/agent-host/src/turn.ts): asks and decisions race,
    and the maps decide which decision answers which ask. */
module Approvals {
  import opened Wrappers

  datatype Outcome = AllowedOnce | Rejected | Cancelled

  /** One call of `onApprovalRequest` and how its promise stands.  `via` is the number of the
      decision that settled it, if one did. */
  datatype Ask = Ask(session: string, call: Option<string>, outcome: Option<Outcome>, via: Option<nat>)

  /** The asks and the two maps that hold the unsettled ones. */
  datatype Pool = Pool(asks: seq<Ask>, byCall: map<string, nat>, anonymous: map<string, seq<nat>>)

  datatype Link = Link(session: string, call: Option<string>)

  /** A decision, numbered by arrival. */
  datatype Decision = Decision(outcome: Outcome, number: nat)

  type Links = map<string, Link>

  datatype Bridge = Bridge(pool: Pool, links: Links, early: map<string, Decision>, decisions: nat)

  datatype Event =
    | Asked(id: string, session: string, call: Option<string>)
    | Requested(session: string, call: Option<string>, aborted: bool)
    | Aborted(ask: nat)
    | Decided(id: string, outcome: Outcome)

  const EMPTY := Bridge(Pool([], map[], map[]), map[], map[], 0)

  // ---------------------------------------------------------------- the pending asks

  function Queue(p: Pool, session: string): seq<nat> {
    if session in p.anonymous then p.anonymous[session] else []
  }

  function Without(queue: seq<nat>, k: nat): seq<nat> {
    if queue == [] then []
    else if queue[0] == k then queue[1..]
    else [queue[0]] + Without(queue[1..], k)
  }

  predicate Unsettled(p: Pool, k: nat) {
    k < |p.asks| && p.asks[k].outcome.None?
  }

  function SettleAsk(asks: seq<Ask>, k: nat, outcome: Outcome, via: Option<nat>): seq<Ask>
    requires k < |asks|
  {
    asks[k := asks[k].(outcome := Some(outcome), via := via)]
  }

  /** `settle`, once: the outcome, and `unpend`. */
  function Settled(p: Pool, k: nat, outcome: Outcome, via: Option<nat>): Pool {
    if !Unsettled(p, k) then p
    else
      var ask, asks := p.asks[k], SettleAsk(p.asks, k, outcome, via);
      if ask.call.Some? && ask.call.value in p.byCall && p.byCall[ask.call.value] == k then
        Pool(asks, p.byCall - {ask.call.value}, p.anonymous)
      else if ask.session in p.anonymous then
        Pool(asks, p.byCall, p.anonymous[ask.session := Without(p.anonymous[ask.session], k)])
      else Pool(asks, p.byCall, p.anonymous)
  }

  function Pend(p: Pool, session: string, call: Option<string>): Pool {
    var k, asks := |p.asks|, p.asks + [Ask(session, call, None, None)];
    if call.Some? then Pool(asks, p.byCall[call.value := k], p.anonymous)
    else Pool(asks, p.byCall, p.anonymous[session := Queue(p, session) + [k]])
  }

  /** An ask that a parked decision answers never pends. */
  function Answered(p: Pool, session: string, call: Option<string>, d: Decision): Pool {
    p.(asks := p.asks + [Ask(session, call, Some(d.outcome), Some(d.number))])
  }

  // ---------------------------------------------------------------- asks and decisions

  /** `settleCallId` would find an ask. */
  predicate CallPends(p: Pool, call: string) {
    call in p.byCall && Unsettled(p, p.byCall[call])
  }

  /** `queue.find(e => !e.settled)`. */
  function FirstUnsettled(p: Pool, queue: seq<nat>): (k: Option<nat>)
    ensures k.Some? ==> Unsettled(p, k.value) && k.value in queue
  {
    if queue == [] then None
    else if Unsettled(p, queue[0]) then Some(queue[0])
    else FirstUnsettled(p, queue[1..])
  }

  /** The code tests a link's call id for truth, so an empty id names no call. */
  predicate NamesCall(link: Link) {
    link.call.Some? && link.call.value != ""
  }

  /** The ask a decision settles on arrival. */
  function Target(p: Pool, links: Links, id: string): (k: Option<nat>)
    ensures k.Some? ==> Unsettled(p, k.value)
  {
    if CallPends(p, id) then Some(p.byCall[id])
    else if id !in links then None
    else if NamesCall(links[id]) && CallPends(p, links[id].call.value) then Some(p.byCall[links[id].call.value])
    else FirstUnsettled(p, Queue(p, links[id].session))
  }

  /** A decision that settles nothing is parked under its id and under the call its id is linked to. */
  function Park(early: map<string, Decision>, links: Links, id: string, d: Decision): map<string, Decision> {
    if id in links && NamesCall(links[id]) then early[id := d][links[id].call.value := d] else early[id := d]
  }

  /** `resolveApproval` for decision `number`. */
  function Resolve(b: Bridge, id: string, outcome: Outcome, number: nat): Bridge {
    var target := Target(b.pool, b.links, id);
    if target.Some? then b.(pool := Settled(b.pool, target.value, outcome, Some(number)))
    else b.(early := Park(b.early, b.links, id, Decision(outcome, number)))
  }

  function Decide(b: Bridge, id: string, outcome: Outcome): Bridge {
    Resolve(b, id, outcome, b.decisions).(decisions := b.decisions + 1)
  }

  /** `onApprovalRequest`. */
  function Request(b: Bridge, session: string, call: Option<string>, aborted: bool): Bridge {
    if call.Some? && call.value in b.early then
      b.(pool := Answered(b.pool, session, call, b.early[call.value]), early := b.early - {call.value})
    else
      var pended := Pend(b.pool, session, call);
      b.(pool := if aborted then Settled(pended, |b.pool.asks|, Cancelled, None) else pended)
  }

  function Next(b: Bridge, e: Event): Bridge {
    match e
    case Asked(id, session, call) => b.(links := b.links[id := Link(session, call)])
    case Requested(session, call, aborted) => Request(b, session, call, aborted)
    case Aborted(k) => b.(pool := Settled(b.pool, k, Cancelled, None))
    case Decided(id, outcome) => Decide(b, id, outcome)
  }

  function After(b: Bridge, events: seq<Event>): Bridge {
    if events == [] then b else Next(After(b, events[..|events| - 1]), events[|events| - 1])
  }

  // ---------------------------------------------------------------- the maps in place

  class HarnessTurnStarter {
    var asks: seq<Ask>
    var pendingByCall: map<string, nat>
    var pendingAnonymous: map<string, seq<nat>>
    var askedLinks: Links
    var earlyDecisions: map<string, Decision>
    var decisions: nat

    function Pending(): Pool
      reads this
    {
      Pool(asks, pendingByCall, pendingAnonymous)
    }

    function Abstract(): Bridge
      reads this
    {
      Bridge(Pending(), askedLinks, earlyDecisions, decisions)
    }

    constructor ()
      ensures Abstract() == EMPTY
    {
      asks, pendingByCall, pendingAnonymous := [], map[], map[];
      askedLinks, earlyDecisions, decisions := map[], map[], 0;
    }

    method Settle(k: nat, outcome: Outcome, via: Option<nat>)
      requires k < |asks|
      modifies this`asks, this`pendingByCall, this`pendingAnonymous
      ensures Pending() == Settled(old(Pending()), k, outcome, via)
      ensures asks == if old(asks)[k].outcome.Some? then old(asks)
                      else old(asks)[k := old(asks)[k].(outcome := Some(outcome), via := via)]
    {
      if asks[k].outcome.Some? {
        return;
      }
      var ask := asks[k];
      asks := SettleAsk(asks, k, outcome, via);
      if ask.call.Some? && ask.call.value in pendingByCall && pendingByCall[ask.call.value] == k {
        pendingByCall := pendingByCall - {ask.call.value};
        return;
      }
      if ask.session in pendingAnonymous {
        pendingAnonymous := pendingAnonymous[ask.session := Without(pendingAnonymous[ask.session], k)];
      }
    }

    method SettleCallId(call: string, outcome: Outcome, via: nat) returns (settled: bool)
      modifies this`asks, this`pendingByCall, this`pendingAnonymous
      ensures settled == CallPends(old(Pending()), call)
      ensures settled <==> call in old(pendingByCall) && old(pendingByCall)[call] < |old(asks)|
                           && old(asks)[old(pendingByCall)[call]].outcome.None?
      ensures settled ==> var k := old(pendingByCall)[call];
                          asks == old(asks)[k := old(asks)[k].(outcome := Some(outcome), via := Some(via))]
      ensures Pending() == if settled then Settled(old(Pending()), old(pendingByCall)[call], outcome, Some(via))
                           else old(Pending())
    {
      settled := call in pendingByCall && pendingByCall[call] < |asks| && asks[pendingByCall[call]].outcome.None?;
      if settled {
        Settle(pendingByCall[call], outcome, Some(via));
      }
    }

    method SettleAnonymous(session: string, outcome: Outcome, via: nat) returns (settled: bool)
      modifies this`asks, this`pendingByCall, this`pendingAnonymous
      ensures var first := FirstUnsettled(old(Pending()), Queue(old(Pending()), session));
              && settled == first.Some?
              && Pending() ==
                   if settled then Settled(old(Pending()), first.value, outcome, Some(via)) else old(Pending())
    {
      var queue := if session in pendingAnonymous then pendingAnonymous[session] else [];
      var i := 0;
      while i < |queue| && !(queue[i] < |asks| && asks[queue[i]].outcome.None?)
        invariant i <= |queue| && Pending() == old(Pending())
        invariant FirstUnsettled(Pending(), queue) == FirstUnsettled(Pending(), queue[i..])
      {
        i := i + 1;
      }
      settled := i < |queue|;
      if settled {
        Settle(queue[i], outcome, Some(via));
      }
    }

    /** The part of `resolveApproval` for an id that has been asked: settle, or park. */
    method ResolveLinked(id: string, outcome: Outcome, number: nat)
      requires id in askedLinks && !CallPends(Pending(), id)
      modifies this`asks, this`pendingByCall, this`pendingAnonymous, this`earlyDecisions
      ensures Abstract() == Resolve(old(Abstract()), id, outcome, number)
    {
      var link := askedLinks[id];
      if link.call.Some? && link.call.value != "" {
        var settled := SettleCallId(link.call.value, outcome, number);
        if settled {
          return;
        }
      }
      var settled := SettleAnonymous(link.session, outcome, number);
      if settled {
        return;
      }
      earlyDecisions := earlyDecisions[id := Decision(outcome, number)];
      if link.call.Some? && link.call.value != "" {
        earlyDecisions := earlyDecisions[link.call.value := Decision(outcome, number)];
      }
    }

    /** Reports whether the id was known: it settled an ask or had been asked. */
    method ResolveApproval(id: string, outcome: Outcome) returns (known: bool)
      modifies this
      ensures Abstract() == Decide(old(Abstract()), id, outcome)
      ensures known <==> CallPends(old(Pending()), id) || id in old(askedLinks)
      ensures askedLinks == old(askedLinks) && |asks| == |old(asks)|
    {
      var number := decisions;
      known := SettleCallId(id, outcome, number);
      if !known {
        known := id in askedLinks;
        if known {
          ResolveLinked(id, outcome, number);
        } else {
          earlyDecisions := earlyDecisions[id := Decision(outcome, number)];
        }
      }
      decisions := number + 1;
    }

    method OnApprovalRequest(session: string, call: Option<string>, aborted: bool) returns (ask: nat)
      modifies this
      ensures ask == |old(asks)| && Abstract() == Request(old(Abstract()), session, call, aborted)
      ensures |asks| == ask + 1 && asks[..ask] == old(asks)
      ensures asks[ask] == if call.Some? && call.value in old(earlyDecisions) then
                             var early := old(earlyDecisions)[call.value];
                             Ask(session, call, Some(early.outcome), Some(early.number))
                           else Ask(session, call, if aborted then Some(Cancelled) else None, None)
    {
      ask := |asks|;
      if call.Some? && call.value in earlyDecisions {
        var early := earlyDecisions[call.value];
        earlyDecisions := earlyDecisions - {call.value};
        asks := asks + [Ask(session, call, Some(early.outcome), Some(early.number))];
        return;
      }
      asks := asks + [Ask(session, call, None, None)];
      if call.Some? {
        pendingByCall := pendingByCall[call.value := ask];
      } else {
        var queue := if session in pendingAnonymous then pendingAnonymous[session] else [];
        pendingAnonymous := pendingAnonymous[session := queue + [ask]];
      }
      if aborted {
        Settle(ask, Cancelled, None);
      }
    }
  }

  // ---------------------------------------------------------------- the invariant

  /** An unsettled ask without a call id, of `session`. */
  predicate Anonymous(p: Pool, session: string, k: nat) {
    Unsettled(p, k) && p.asks[k].call.None? && p.asks[k].session == session
  }

  /** No later ask carries the same call id. */
  ghost predicate Latest(asks: seq<Ask>, k: nat) {
    k < |asks| && forall l: nat :: k < l < |asks| ==> asks[l].call != asks[k].call
  }

  ghost predicate CallsOk(p: Pool) {
    && (forall c :: c in p.byCall ==> Unsettled(p, p.byCall[c]) && p.asks[p.byCall[c]].call == Some(c))
    && (forall k: nat :: Unsettled(p, k) && p.asks[k].call.Some? && Latest(p.asks, k) ==>
          p.asks[k].call.value in p.byCall && p.byCall[p.asks[k].call.value] == k)
  }

  ghost predicate Ascending(queue: seq<nat>) {
    forall i, j :: 0 <= i < j < |queue| ==> queue[i] < queue[j]
  }

  ghost predicate QueueOk(p: Pool, session: string) {
    && Ascending(Queue(p, session))
    && forall k: nat :: k in Queue(p, session) <==> Anonymous(p, session, k)
  }

  /** The maps hold unsettled asks only: under each call its latest, and in each session's queue
      exactly the call-less ones, oldest first. */
  ghost predicate Inv(p: Pool) {
    CallsOk(p) && forall session: string :: QueueOk(p, session)
  }

  lemma HeadAndRest(queue: seq<nat>)
    requires queue != [] && Ascending(queue)
    ensures Ascending(queue[1..]) && forall x: nat :: x in queue[1..] ==> queue[0] < x
    ensures forall x: nat :: x in queue <==> x == queue[0] || x in queue[1..]
  {
    assert forall i :: 0 <= i < |queue[1..]| ==> queue[1..][i] == queue[i + 1];
  }

  lemma AscendingCons(x: nat, kept: seq<nat>)
    requires Ascending(kept) && forall y :: y in kept ==> x < y
    ensures Ascending([x] + kept)
  {
    var all := [x] + kept;
    forall i, j | 0 <= i < j < |all| ensures all[i] < all[j] {
      assert all[j] == kept[j - 1] && kept[j - 1] in kept;
      assert i > 0 ==> all[i] == kept[i - 1];
    }
  }

  lemma {:induction false} WithoutRemoves(queue: seq<nat>, k: nat)
    requires Ascending(queue)
    ensures Ascending(Without(queue, k))
    ensures forall x: nat :: x in Without(queue, k) <==> x in queue && x != k
  {
    if queue != [] {
      HeadAndRest(queue);
      if queue[0] != k {
        WithoutRemoves(queue[1..], k);
        AscendingCons(queue[0], Without(queue[1..], k));
      }
    }
  }

  /** Settling takes the ask out of the queues of the session it was asked in, if it was in one. */
  lemma SettledQueue(p: Pool, k: nat, outcome: Outcome, via: Option<nat>, session: string)
    requires Inv(p) && Unsettled(p, k)
    ensures forall x: nat :: x in Queue(Settled(p, k, outcome, via), session) <==> x in Queue(p, session) && x != k
    ensures Ascending(Queue(Settled(p, k, outcome, via), session))
  {
    assert QueueOk(p, session);
    WithoutRemoves(Queue(p, session), k);
  }

  lemma SettledAnonymous(p: Pool, k: nat, outcome: Outcome, via: Option<nat>, session: string, x: nat)
    requires Unsettled(p, k)
    ensures Anonymous(Settled(p, k, outcome, via), session, x) <==> Anonymous(p, session, x) && x != k
  {
    assert Settled(p, k, outcome, via).asks == SettleAsk(p.asks, k, outcome, via);
  }

  lemma SettleKeepsQueue(p: Pool, k: nat, outcome: Outcome, via: Option<nat>, session: string)
    requires Inv(p) && Unsettled(p, k)
    ensures QueueOk(Settled(p, k, outcome, via), session)
  {
    assert QueueOk(p, session);
    SettledQueue(p, k, outcome, via, session);
    forall x: nat ensures x in Queue(Settled(p, k, outcome, via), session)
                     <==> Anonymous(Settled(p, k, outcome, via), session, x) {
      SettledAnonymous(p, k, outcome, via, session, x);
    }
  }

  lemma SettleKeepsCalls(p: Pool, k: nat, outcome: Outcome, via: Option<nat>)
    requires CallsOk(p) && Unsettled(p, k)
    ensures CallsOk(Settled(p, k, outcome, via))
  {
    var t := Settled(p, k, outcome, via);
    assert t.asks == SettleAsk(p.asks, k, outcome, via);
    SameCallsSameLatest(p.asks, t.asks);
  }

  lemma SameCallsSameLatest(a: seq<Ask>, b: seq<Ask>)
    requires |a| == |b| && forall k :: 0 <= k < |a| ==> a[k].call == b[k].call
    ensures forall k: nat :: Latest(a, k) == Latest(b, k)
  {
  }

  lemma SettleKeepsInv(p: Pool, k: nat, outcome: Outcome, via: Option<nat>)
    requires Inv(p)
    ensures Inv(Settled(p, k, outcome, via))
  {
    if Unsettled(p, k) {
      SettleKeepsCalls(p, k, outcome, via);
      forall session: string ensures QueueOk(Settled(p, k, outcome, via), session) {
        SettleKeepsQueue(p, k, outcome, via, session);
      }
    }
  }

  lemma AppendLargest(queue: seq<nat>, k: nat)
    requires Ascending(queue) && forall x: nat :: x in queue ==> x < k
    ensures Ascending(queue + [k])
  {
    assert forall i :: 0 <= i < |queue| ==> queue[i] in queue;
  }

  /** A further ask makes no earlier ask the latest of its call. */
  lemma LatestBefore(asks: seq<Ask>, ask: Ask)
    ensures forall k: nat :: k < |asks| && Latest(asks + [ask], k) ==> Latest(asks, k) && asks[k].call != ask.call
  {
    assert forall k: nat :: k < |asks| ==> (asks + [ask])[k] == asks[k];
    assert (asks + [ask])[|asks|] == ask;
  }

  lemma PendKeepsInv(p: Pool, session: string, call: Option<string>)
    requires Inv(p)
    ensures Inv(Pend(p, session, call))
  {
    var t := Pend(p, session, call);
    forall s: string ensures QueueOk(t, s) {
      assert QueueOk(p, s);
      AppendLargest(Queue(p, s), |p.asks|);
      assert forall k: nat :: k < |p.asks| ==> (Anonymous(t, s, k) <==> Anonymous(p, s, k));
    }
    LatestBefore(p.asks, Ask(session, call, None, None));
  }

  lemma AnsweredKeepsInv(p: Pool, session: string, call: Option<string>, d: Decision)
    requires Inv(p)
    ensures Inv(Answered(p, session, call, d))
  {
    var t := Answered(p, session, call, d);
    LatestBefore(p.asks, Ask(session, call, Some(d.outcome), Some(d.number)));
    forall s: string ensures QueueOk(t, s) {
      assert QueueOk(p, s);
      assert forall k: nat :: Anonymous(t, s, k) <==> Anonymous(p, s, k);
    }
  }

  lemma NextKeepsInv(b: Bridge, e: Event)
    requires Inv(b.pool)
    ensures Inv(Next(b, e).pool)
  {
    match e
    case Asked(_, _, _) =>
    case Requested(session, call, aborted) =>
      PendKeepsInv(b.pool, session, call);
      SettleKeepsInv(Pend(b.pool, session, call), |b.pool.asks|, Cancelled, None);
      if call.Some? && call.value in b.early {
        AnsweredKeepsInv(b.pool, session, call, b.early[call.value]);
      }
    case Aborted(k) => SettleKeepsInv(b.pool, k, Cancelled, None);
    case Decided(id, outcome) =>
      var target := Target(b.pool, b.links, id);
      if target.Some? {
        SettleKeepsInv(b.pool, target.value, outcome, Some(b.decisions));
      }
  }

  lemma {:induction false} PendingMapsAlwaysExact(events: seq<Event>)
    ensures Inv(After(EMPTY, events).pool)
  {
    if events != [] {
      PendingMapsAlwaysExact(events[..|events| - 1]);
      NextKeepsInv(After(EMPTY, events[..|events| - 1]), events[|events| - 1]);
    }
  }

  // ---------------------------------------------------------------- asks settle once, oldest first

  /** What has settled stays as it is, and no ask changes its session or call. */
  ghost predicate Extends(a: seq<Ask>, b: seq<Ask>) {
    && |a| <= |b|
    && forall k: nat :: k < |a| ==>
         && b[k].session == a[k].session && b[k].call == a[k].call
         && (a[k].outcome.Some? ==> b[k] == a[k])
  }

  lemma SettleExtends(p: Pool, k: nat, outcome: Outcome, via: Option<nat>)
    ensures Extends(p.asks, Settled(p, k, outcome, via).asks)
    ensures Settled(p, k, outcome, via).asks == if Unsettled(p, k) then SettleAsk(p.asks, k, outcome, via) else p.asks
  {
  }

  lemma NextExtends(b: Bridge, e: Event)
    ensures Extends(b.pool.asks, Next(b, e).pool.asks)
  {
    match e
    case Asked(_, _, _) =>
    case Requested(session, call, aborted) =>
      SettleExtends(Pend(b.pool, session, call), |b.pool.asks|, Cancelled, None);
    case Aborted(k) => SettleExtends(b.pool, k, Cancelled, None);
    case Decided(id, outcome) =>
      var target := Target(b.pool, b.links, id);
      if target.Some? {
        SettleExtends(b.pool, target.value, outcome, Some(b.decisions));
      }
  }

  /** Every ask settles at most once, whatever happens later. */
  lemma {:induction false} AsksSettleOnce(b: Bridge, events: seq<Event>)
    ensures Extends(b.pool.asks, After(b, events).pool.asks)
  {
    if events != [] {
      AsksSettleOnce(b, events[..|events| - 1]);
      NextExtends(After(b, events[..|events| - 1]), events[|events| - 1]);
    }
  }

  /** The first unsettled entry of a session's queue is its oldest unsettled call-less ask. */
  lemma FirstIsOldest(p: Pool, session: string)
    requires Inv(p)
    ensures var first := FirstUnsettled(p, Queue(p, session));
            && (first.Some? ==> Anonymous(p, session, first.value))
            && forall k: nat :: Anonymous(p, session, k) ==> first.Some? && first.value <= k
  {
    assert QueueOk(p, session);
    var queue := Queue(p, session);
    if queue != [] {
      assert queue[0] in queue;
    }
  }

  /** A decision settles at most one ask on arrival, and changes no other: the one pending for that
      call, or the session's oldest call-less one. */
  lemma DecisionSettlesOneAsk(b: Bridge, id: string, outcome: Outcome) returns (settles: Option<nat>)
    requires Inv(b.pool)
    ensures settles.None? ==> Decide(b, id, outcome).pool == b.pool
    ensures settles.Some? ==>
              var k := settles.value;
              && Unsettled(b.pool, k)
              && Decide(b, id, outcome).pool.asks == SettleAsk(b.pool.asks, k, outcome, Some(b.decisions))
              && (b.pool.asks[k].call.Some? ==>
                   b.pool.asks[k].call.value in b.pool.byCall && b.pool.byCall[b.pool.asks[k].call.value] == k)
              && (b.pool.asks[k].call.None? ==>
                   forall j: nat :: Anonymous(b.pool, b.pool.asks[k].session, j) ==> k <= j)
  {
    settles := Target(b.pool, b.links, id);
    if settles.Some? {
      SettleExtends(b.pool, settles.value, outcome, Some(b.decisions));
      if id in b.links {
        FirstIsOldest(b.pool, b.links[id].session);
      }
    }
  }

  // ---------------------------------------------------------------- with what outcome

  /** What the decisions among `events` say, in order of arrival. */
  function Given(events: seq<Event>): seq<Outcome> {
    if events == [] then []
    else
      var before, e := Given(events[..|events| - 1]), events[|events| - 1];
      if e.Decided? then before + [e.outcome] else before
  }

  /** An ask settled by decision `n` has the outcome that decision gave; one settled by none was cancelled;
      and a parked decision is kept with the outcome it gave. */
  ghost predicate OutcomesOk(b: Bridge, given: seq<Outcome>) {
    && b.decisions == |given|
    && (forall k :: 0 <= k < |b.pool.asks| && b.pool.asks[k].outcome.Some? && b.pool.asks[k].via.None? ==>
          b.pool.asks[k].outcome == Some(Cancelled))
    && (forall k :: 0 <= k < |b.pool.asks| && b.pool.asks[k].via.Some? ==>
          b.pool.asks[k].via.value < |given| && b.pool.asks[k].outcome == Some(given[b.pool.asks[k].via.value]))
    && (forall x :: x in b.early ==> b.early[x].number < |given| && b.early[x].outcome == given[b.early[x].number])
  }

  lemma SettledOutcomes(b: Bridge, given: seq<Outcome>, k: nat, outcome: Outcome, via: Option<nat>)
    requires OutcomesOk(b, given)
    requires if via.Some? then via.value < |given| && outcome == given[via.value] else outcome == Cancelled
    ensures OutcomesOk(b.(pool := Settled(b.pool, k, outcome, via)), given)
  {
    SettleExtends(b.pool, k, outcome, via);
  }

  lemma DecidedOutcomes(b: Bridge, given: seq<Outcome>, id: string, outcome: Outcome)
    requires OutcomesOk(b, given)
    ensures OutcomesOk(Decide(b, id, outcome), given + [outcome])
  {
    var more, target := b.(decisions := b.decisions + 1), Target(b.pool, b.links, id);
    assert OutcomesOk(more, given + [outcome]);
    if target.Some? {
      SettledOutcomes(more, given + [outcome], target.value, outcome, Some(b.decisions));
    }
  }

  lemma NextOutcomes(b: Bridge, given: seq<Outcome>, e: Event)
    requires OutcomesOk(b, given)
    ensures OutcomesOk(Next(b, e), if e.Decided? then given + [e.outcome] else given)
  {
    match e
    case Asked(_, _, _) =>
    case Requested(session, call, aborted) =>
      var pended := b.(pool := Pend(b.pool, session, call));
      assert OutcomesOk(pended, given);
      SettledOutcomes(pended, given, |b.pool.asks|, Cancelled, None);
    case Aborted(k) => SettledOutcomes(b, given, k, Cancelled, None);
    case Decided(id, outcome) => DecidedOutcomes(b, given, id, outcome);
  }

  /** Over any run. */
  lemma {:induction false} OutcomesAreGiven(events: seq<Event>)
    ensures OutcomesOk(After(EMPTY, events), Given(events))
  {
    if events != [] {
      OutcomesAreGiven(events[..|events| - 1]);
      NextOutcomes(After(EMPTY, events[..|events| - 1]), Given(events[..|events| - 1]), events[|events| - 1]);
    }
  }

  /** Neither map holds ask `k`. */
  ghost predicate PendsNowhere(p: Pool, k: nat) {
    && (forall c :: c in p.byCall ==> p.byCall[c] != k)
    && (forall session :: session in p.anonymous ==> k !in p.anonymous[session])
  }

  lemma SettledPendsNowhere(p: Pool, k: nat)
    requires Inv(p) && k < |p.asks| && p.asks[k].outcome.Some?
    ensures PendsNowhere(p, k)
  {
    forall session | session in p.anonymous ensures k !in p.anonymous[session] {
      assert QueueOk(p, session);
      assert !Anonymous(p, session, k);
    }
  }

  /** An ask that is aborted already when it comes, and that no parked decision answers, is cancelled; so
      is an unsettled ask that is aborted later.  Neither pends then. */
  lemma AbortedIsCancelled(b: Bridge, session: string, call: Option<string>, k: nat)
    requires Inv(b.pool)
    ensures (call.Some? ==> call.value !in b.early) ==>
              var p := Next(b, Requested(session, call, true)).pool;
              && p.asks == b.pool.asks + [Ask(session, call, Some(Cancelled), None)]
              && PendsNowhere(p, |b.pool.asks|)
    ensures k < |b.pool.asks| && b.pool.asks[k].outcome.None? ==>
              var p := Next(b, Aborted(k)).pool;
              && p.asks == b.pool.asks[k := b.pool.asks[k].(outcome := Some(Cancelled), via := None)]
              && PendsNowhere(p, k)
  {
    NextKeepsInv(b, Requested(session, call, true));
    NextKeepsInv(b, Aborted(k));
    SettleExtends(Pend(b.pool, session, call), |b.pool.asks|, Cancelled, None);
    SettleExtends(b.pool, k, Cancelled, None);
    var p, q := Next(b, Requested(session, call, true)).pool, Next(b, Aborted(k)).pool;
    if call.Some? ==> call.value !in b.early {
      SettledPendsNowhere(p, |b.pool.asks|);
    }
    if k < |b.pool.asks| && b.pool.asks[k].outcome.None? {
      SettledPendsNowhere(q, k);
    }
  }
}

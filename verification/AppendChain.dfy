/** The per-session append chains of the agent host (apps/agent-host/src/turn.ts): `enqueueAppend`
    chains one promise a session, and `drainAppends` waits for the chain's end. */
module AppendChain {
  import opened Wrappers

  datatype Status = Waiting | Running | Settled

  /** One call of `appendOne`: it runs once the promise it was chained to has settled. */
  datatype Append = Append(session: string, after: Option<nat>, status: Status)

  /** `stored` lists the appends that have succeeded, as the repository saw them. */
  datatype Chains = Chains(appends: seq<Append>, tails: map<string, nat>, stored: seq<nat>)

  datatype Event =
    | Enqueued(session: string, userMessage: bool)
    | Started(k: nat)
    | Finished(k: nat, ok: bool)
    | Forgotten(k: nat)          // the continuation of a successful append

  const EMPTY := Chains([], map[], [])

  predicate SettledAt(c: Chains, k: nat) {
    k < |c.appends| && c.appends[k].status.Settled?
  }

  predicate Enabled(c: Chains, e: Event) {
    match e
    case Enqueued(_, _) => true
    case Started(k) =>
      && k < |c.appends| && c.appends[k].status.Waiting?
      && (c.appends[k].after.Some? ==> SettledAt(c, c.appends[k].after.value))
    case Finished(k, _) => k < |c.appends| && c.appends[k].status.Running?
    case Forgotten(k) => SettledAt(c, k)
  }

  function TailOf(c: Chains, session: string): Option<nat> {
    if session in c.tails then Some(c.tails[session]) else None
  }

  function WithStatus(appends: seq<Append>, k: nat, status: Status): seq<Append>
    requires k < |appends|
  {
    appends[k := appends[k].(status := status)]
  }

  function Next(c: Chains, e: Event): Chains
    requires Enabled(c, e)
  {
    match e
    case Enqueued(session, userMessage) =>
      if userMessage then c
      else
        var k, chained := |c.appends|, Append(session, TailOf(c, session), Waiting);
        c.(appends := c.appends + [chained], tails := c.tails[session := k])
    case Started(k) => c.(appends := WithStatus(c.appends, k, Running))
    case Finished(k, ok) =>
      c.(appends := WithStatus(c.appends, k, Settled), stored := if ok then c.stored + [k] else c.stored)
    case Forgotten(k) =>
      if TailOf(c, c.appends[k].session) == Some(k) then c.(tails := c.tails - {c.appends[k].session}) else c
  }

  class TurnAppends {
    var appends: seq<Append>
    var tails: map<string, nat>
    var stored: seq<nat>

    function Abstract(): Chains
      reads this
    {
      Chains(appends, tails, stored)
    }

    constructor ()
      ensures Abstract() == EMPTY
    {
      appends, tails, stored := [], map[], [];
    }

    method EnqueueAppend(session: string, userMessage: bool)
      modifies this
      ensures Abstract() == Next(old(Abstract()), Enqueued(session, userMessage))
      ensures userMessage ==> appends == old(appends) && tails == old(tails)
      ensures !userMessage ==>
                && appends == old(appends)
                     + [Append(session, if session in old(tails) then Some(old(tails)[session]) else None, Waiting)]
                && tails == old(tails)[session := |old(appends)|]
    {
      if userMessage {
        return;
      }
      var tail := if session in tails then Some(tails[session]) else None;
      tails := tails[session := |appends|];
      appends := appends + [Append(session, tail, Waiting)];
    }

    method Settle(k: nat, ok: bool)
      requires Enabled(Abstract(), Finished(k, ok))
      modifies this
      ensures Abstract() == Next(old(Abstract()), Finished(k, ok))
      ensures appends == old(appends)[k := old(appends)[k].(status := Settled)]
      ensures stored == if ok then old(stored) + [k] else old(stored)
    {
      appends := WithStatus(appends, k, Settled);
      if ok {
        stored := stored + [k];
      }
    }

    method Forget(k: nat)
      requires Enabled(Abstract(), Forgotten(k))
      modifies this
      ensures Abstract() == Next(old(Abstract()), Forgotten(k))
      ensures var session := appends[k].session;
              tails == if session in old(tails) && old(tails)[session] == k then old(tails) - {session} else old(tails)
    {
      var session := appends[k].session;
      if session in tails && tails[session] == k {
        tails := tails - {session};
      }
    }
  }

  // ---------------------------------------------------------------- one at a time, in order

  /** Every append of the same session before `k` has settled. */
  ghost predicate EarlierSettled(appends: seq<Append>, k: nat) {
    k < |appends| && forall i: nat :: i < k && appends[i].session == appends[k].session ==> appends[i].status.Settled?
  }

  /** No append of the session lies strictly between. */
  ghost predicate NoneBetween(appends: seq<Append>, session: string, a: nat, b: nat) {
    forall i: nat :: a < i < b && i < |appends| ==> appends[i].session != session
  }

  ghost predicate AppendOk(appends: seq<Append>, k: nat)
    requires k < |appends|
  {
    && (match appends[k].after
        case Some(a) =>
          a < k && appends[a].session == appends[k].session && NoneBetween(appends, appends[k].session, a, k)
        case None => EarlierSettled(appends, k))
    && (!appends[k].status.Waiting? ==> EarlierSettled(appends, k))
  }

  ghost predicate TailOk(c: Chains, session: string) {
    if session in c.tails then
      var t := c.tails[session];
      t < |c.appends| && c.appends[t].session == session && NoneBetween(c.appends, session, t, |c.appends|)
    else forall i: nat :: i < |c.appends| && c.appends[i].session == session ==> c.appends[i].status.Settled?
  }

  ghost predicate StoredOk(c: Chains) {
    && (forall i :: 0 <= i < |c.stored| ==> SettledAt(c, c.stored[i]))
    && (forall i, j :: 0 <= i < j < |c.stored| ==>
          c.stored[i] < |c.appends| && c.stored[j] < |c.appends|
          && (c.appends[c.stored[i]].session == c.appends[c.stored[j]].session ==> c.stored[i] < c.stored[j]))
  }

  ghost predicate Inv(c: Chains) {
    && (forall k: nat :: k < |c.appends| ==> AppendOk(c.appends, k))
    && (forall session: string :: TailOk(c, session))
    && StoredOk(c)
  }

  lemma ReadyMeansEarlierSettled(c: Chains, k: nat)
    requires Inv(c) && k < |c.appends|
    requires c.appends[k].after.Some? ==> SettledAt(c, c.appends[k].after.value)
    ensures EarlierSettled(c.appends, k)
  {
    assert AppendOk(c.appends, k);
    if c.appends[k].after.Some? {
      var a := c.appends[k].after.value;
      assert AppendOk(c.appends, a);
      forall i: nat | i < k && c.appends[i].session == c.appends[k].session ensures c.appends[i].status.Settled? {
        assert !(a < i < k);
      }
    }
  }

  lemma EnqueueKeepsInv(c: Chains, session: string)
    requires Inv(c)
    ensures Inv(Next(c, Enqueued(session, false)))
  {
    var t := Next(c, Enqueued(session, false));
    var n := |c.appends|;
    assert TailOk(c, session);
    forall k: nat | k < |t.appends| ensures AppendOk(t.appends, k) {
      if k < n {
        assert AppendOk(c.appends, k);
      }
    }
    forall s: string ensures TailOk(t, s) {
      assert TailOk(c, s);
    }
  }

  lemma StatusKeepsAppends(c: Chains, k: nat, status: Status)
    requires Inv(c) && k < |c.appends| && EarlierSettled(c.appends, k) && !status.Waiting?
    requires c.appends[k].status.Settled? ==> status.Settled?
    ensures forall i: nat :: i < |c.appends| ==> AppendOk(WithStatus(c.appends, k, status), i)
  {
    var appends := WithStatus(c.appends, k, status);
    forall i: nat | i < |c.appends| ensures AppendOk(appends, i) {
      assert AppendOk(c.appends, i);
    }
  }

  lemma StatusKeepsTails(c: Chains, k: nat, status: Status, stored: seq<nat>)
    requires Inv(c) && k < |c.appends|
    requires c.appends[k].status.Settled? ==> status.Settled?
    ensures forall session: string :: TailOk(Chains(WithStatus(c.appends, k, status), c.tails, stored), session)
                                      || (session == c.appends[k].session && session !in c.tails)
  {
    var t := Chains(WithStatus(c.appends, k, status), c.tails, stored);
    forall session: string ensures TailOk(t, session) || (session == c.appends[k].session && session !in c.tails) {
      assert TailOk(c, session);
    }
  }

  /** Nothing stored so far comes after an append that is running. */
  lemma StoredBefore(c: Chains, k: nat)
    requires Inv(c) && k < |c.appends| && c.appends[k].status.Running?
    ensures forall i :: 0 <= i < |c.stored| && c.appends[c.stored[i]].session == c.appends[k].session ==>
              c.stored[i] < k
  {
    forall i | 0 <= i < |c.stored| && c.appends[c.stored[i]].session == c.appends[k].session ensures c.stored[i] < k {
      assert SettledAt(c, c.stored[i]);
      assert AppendOk(c.appends, c.stored[i]);
    }
  }

  lemma StartKeepsInv(c: Chains, k: nat)
    requires Inv(c) && Enabled(c, Started(k))
    ensures Inv(Next(c, Started(k)))
  {
    ReadyMeansEarlierSettled(c, k);
    StatusKeepsAppends(c, k, Running);
    StatusKeepsTails(c, k, Running, c.stored);
    assert TailOk(c, c.appends[k].session);
  }

  lemma FinishKeepsInv(c: Chains, k: nat, ok: bool)
    requires Inv(c) && Enabled(c, Finished(k, ok))
    ensures Inv(Next(c, Finished(k, ok)))
  {
    assert AppendOk(c.appends, k) && TailOk(c, c.appends[k].session);
    StatusKeepsAppends(c, k, Settled);
    StatusKeepsTails(c, k, Settled, Next(c, Finished(k, ok)).stored);
    StoredBefore(c, k);
  }

  lemma ForgetKeepsInv(c: Chains, k: nat)
    requires Inv(c) && Enabled(c, Forgotten(k))
    ensures Inv(Next(c, Forgotten(k)))
  {
    assert TailOk(c, c.appends[k].session) && AppendOk(c.appends, k);
    forall s: string ensures TailOk(Next(c, Forgotten(k)), s) {
      assert TailOk(c, s);
    }
  }

  lemma NextKeepsInv(c: Chains, e: Event)
    requires Inv(c) && Enabled(c, e)
    ensures Inv(Next(c, e))
  {
    match e
    case Enqueued(session, userMessage) => if !userMessage { EnqueueKeepsInv(c, session); }
    case Started(k) => StartKeepsInv(c, k);
    case Finished(k, ok) => FinishKeepsInv(c, k, ok);
    case Forgotten(k) => ForgetKeepsInv(c, k);
  }

  ghost predicate Execution(states: seq<Chains>, events: seq<Event>) {
    && |states| == |events| + 1 && states[0] == EMPTY
    && forall i :: 0 <= i < |events| ==> Enabled(states[i], events[i]) && states[i + 1] == Next(states[i], events[i])
  }

  lemma {:induction false} InvAlways(states: seq<Chains>, events: seq<Event>, i: nat)
    requires Execution(states, events) && i < |states|
    ensures Inv(states[i])
  {
    if i > 0 {
      InvAlways(states, events, i - 1);
      NextKeepsInv(states[i - 1], events[i - 1]);
    }
  }

  /** At most one append of a session runs at a time. */
  lemma AppendsAreSerial(states: seq<Chains>, events: seq<Event>, i: nat, k: nat, l: nat)
    requires Execution(states, events) && i < |states| && k < l < |states[i].appends|
    requires states[i].appends[k].session == states[i].appends[l].session
    ensures !(states[i].appends[k].status.Running? && states[i].appends[l].status.Running?)
  {
    InvAlways(states, events, i);
    assert AppendOk(states[i].appends, l);
  }

  /** A session's rows are stored in the order of its events, whichever appends fail in between. */
  lemma RowsFollowTheEvents(states: seq<Chains>, events: seq<Event>, i: nat, m: nat, n: nat)
    requires Execution(states, events) && i < |states| && m < n < |states[i].stored|
    ensures SettledAt(states[i], states[i].stored[m]) && SettledAt(states[i], states[i].stored[n])
    ensures states[i].appends[states[i].stored[m]].session == states[i].appends[states[i].stored[n]].session ==>
              states[i].stored[m] < states[i].stored[n]
  {
    InvAlways(states, events, i);
  }

  /** The sessions of the events that are not user messages, in order. */
  function ToAppend(events: seq<Event>): seq<string> {
    if events == [] then []
    else
      var before, e := ToAppend(events[..|events| - 1]), events[|events| - 1];
      if e.Enqueued? && !e.userMessage then before + [e.session] else before
  }

  /** Every event that is not a user message has its append, in order, and no other has. */
  lemma {:induction false} EveryEventHasItsAppend(states: seq<Chains>, events: seq<Event>, i: nat)
    requires Execution(states, events) && i < |states|
    ensures |states[i].appends| == |ToAppend(events[..i])|
    ensures forall k :: 0 <= k < |states[i].appends| ==> states[i].appends[k].session == ToAppend(events[..i])[k]
  {
    if i > 0 {
      EveryEventHasItsAppend(states, events, i - 1);
      assert states[i - 1 + 1] == Next(states[i - 1], events[i - 1]);
      assert events[..i][..i - 1] == events[..i - 1];
    }
  }

  /** What is stored is exactly what has been appended successfully. */
  lemma {:induction false} StoredIffSucceeded(states: seq<Chains>, events: seq<Event>, i: nat, k: nat)
    requires Execution(states, events) && i < |states|
    ensures k in states[i].stored <==> Finished(k, true) in events[..i]
  {
    if i > 0 {
      StoredIffSucceeded(states, events, i - 1, k);
      assert states[i - 1 + 1] == Next(states[i - 1], events[i - 1]);
      assert events[..i] == events[..i - 1] + [events[i - 1]];
    }
  }

  /** No chain hangs: while some append has not settled, one can start or finish. */
  lemma {:induction false} ChainsGoOn(states: seq<Chains>, events: seq<Event>, i: nat, k: nat) returns (l: nat)
    requires Execution(states, events) && i < |states| && k < |states[i].appends|
    requires !states[i].appends[k].status.Settled?
    ensures l <= k && (Enabled(states[i], Started(l)) || forall ok :: Enabled(states[i], Finished(l, ok)))
    decreases k
  {
    InvAlways(states, events, i);
    var append := states[i].appends[k];
    assert AppendOk(states[i].appends, k);
    if append.status.Waiting? && append.after.Some? && !SettledAt(states[i], append.after.value) {
      l := ChainsGoOn(states, events, i, append.after.value);
    } else {
      l := k;
    }
  }

  /** An append stays, keeps its session, and stays settled. */
  lemma {:induction false} AppendsPersist(states: seq<Chains>, events: seq<Event>, i: nat, j: nat, k: nat)
    requires Execution(states, events) && i <= j < |states| && k < |states[i].appends|
    ensures k < |states[j].appends| && states[j].appends[k].session == states[i].appends[k].session
    ensures SettledAt(states[i], k) ==> SettledAt(states[j], k)
  {
    if i < j {
      AppendsPersist(states, events, i, j - 1, k);
      assert states[j - 1 + 1] == Next(states[j - 1], events[j - 1]);
    }
  }

  /** A flush takes the session's tail at one instant and goes on at a later one at which that append
      has settled, or at once if there was no tail: then every append enqueued by the first instant has
      settled by the second, whatever has been enqueued in between. */
  lemma DrainWaitsForAll(states: seq<Chains>, events: seq<Event>, i: nat, j: nat, session: string)
    requires Execution(states, events) && i <= j < |states|
    requires TailOf(states[i], session).Some? ==> SettledAt(states[j], TailOf(states[i], session).value)
    ensures forall k: nat :: k < |states[i].appends| && states[i].appends[k].session == session ==>
              SettledAt(states[j], k)
  {
    InvAlways(states, events, i);
    InvAlways(states, events, j);
    assert TailOk(states[i], session);
    forall k: nat | k < |states[i].appends| && states[i].appends[k].session == session
      ensures SettledAt(states[j], k)
    {
      AppendsPersist(states, events, i, j, k);
      if session in states[i].tails {
        var t := states[i].tails[session];
        AppendsPersist(states, events, i, j, t);
        assert AppendOk(states[j].appends, t);
      }
    }
  }
}

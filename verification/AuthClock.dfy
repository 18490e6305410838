/** How far the clock may go back before the two session stores of the control plane
    (apps/control-plane/src/auth-session.ts) can be told apart. */
module AuthClock {
  import opened AuthStores
  import opened JsNumbers
  import opened Timestamps
  import opened Wrappers

  /** Operation `i` of the run is answered differently, and not for how instants are read back. */
  ghost predicate TellsApart(pg: Client, ops: seq<Op>, a: seq<Sweep>, b: seq<Sweep>, i: nat) {
    && |a| == |b| == |ops| && i < |ops| && FreshTokens(ops) && AllCanonical(ops)
    && MemorySweepsOk(ops, a) && DatabaseSweepsOk(pg, ops, b)
    && DatabaseAnswer(pg, ops, b, i) != Received(pg.driver, MemoryAnswer(ops, a, i))
  }

  /** Some operations at these readings of the clock tell the stores apart. */
  ghost predicate CanBeToldApart(pg: Client, times: seq<Instant>) {
    exists ops: seq<Op>, a: seq<Sweep>, b: seq<Sweep>, i: nat :: Times(ops) == times && TellsApart(pg, ops, a, b, i)
  }

  // ---------------------------------------------------------------- a run that tells them apart

  const USER := GithubUser(Decimal(0), "login")
  const FLOW := Flow("verifier", None, "")

  /** Something is created at `i`, swept from memory at `j` and asked for at `k`. */
  function OpAt(times: seq<Instant>, i: nat, j: nat, k: nat, session: bool, x: nat): Op
    requires x < |times|
  {
    if x == i then
      if session then CreateSession("s", "id", USER, times[x]) else CreateLoginFlow("s", FLOW, times[x])
    else if x == j then CleanupExpired(times[x])
    else if x == k then
      if session then LookupSession("s", times[x]) else ConsumeLoginFlow("s", times[x])
    else RevokeSession("", times[x])
  }

  function OpsAt(times: seq<Instant>, i: nat, j: nat, k: nat, session: bool): (ops: seq<Op>)
    ensures |ops| == |times| && forall x :: 0 <= x < |ops| ==> ops[x] == OpAt(times, i, j, k, session, x)
  {
    seq(|times|, x requires 0 <= x < |times| => OpAt(times, i, j, k, session, x))
  }

  function SweepsAtOnly(n: nat, j: nat): (sweeps: seq<Sweep>)
    ensures |sweeps| == n && forall x :: 0 <= x < n ==> sweeps[x] == if x == j then Sweep({"s"}, {"s"}) else NOTHING
  {
    seq(n, x requires 0 <= x < n => if x == j then Sweep({"s"}, {"s"}) else NOTHING)
  }

  function Lifetime(session: bool): int {
    if session then SESSION_LIFETIME_MS else LOGIN_FLOW_LIFETIME_MS
  }

  function MemoryHolding(session: bool, now: Instant): Memory {
    if session then Memory(map["s" := Row(Session("id", USER, now), now + SESSION_LIFETIME_MS)], map[])
    else Memory(map[], map["s" := Row(FLOW, now + LOGIN_FLOW_LIFETIME_MS)])
  }

  function DatabaseHolding(session: bool, now: Instant): Database {
    if session then
      Database(map["s" := Row(SessionColumns("id", 0, "login", now), now + SESSION_LIFETIME_MS)], map[])
    else Database(map[], map["s" := Row(FlowColumns("verifier", None, []), now + LOGIN_FLOW_LIFETIME_MS)])
  }

  lemma {:induction false} MemoryThen(times: seq<Instant>, i: nat, j: nat, k: nat, session: bool, n: nat)
    requires i < j < k < |times| && n <= k
    ensures MemoryAfter(OpsAt(times, i, j, k, session), SweepsAtOnly(|times|, j), n) ==
            if i < n <= j then MemoryHolding(session, times[i]) else Memory(map[], map[])
  {
    if n > 0 {
      MemoryThen(times, i, j, k, session, n - 1);
    }
  }

  lemma {:induction false} DatabaseThen(pg: Client, times: seq<Instant>, i: nat, j: nat, k: nat, session: bool, n: nat)
    requires i < j < k < |times| && n <= k && ReadsDecimals(pg.num)
    ensures DatabaseAfter(pg, OpsAt(times, i, j, k, session), NoSweeps(|times|), n) ==
            if i < n then DatabaseHolding(session, times[i]) else Database(map[], map[])
  {
    if n > 0 {
      DatabaseThen(pg, times, i, j, k, session, n - 1);
      assert pg.num(Decimal(0)) == Some(0);
    }
  }

  lemma RunIsRegular(times: seq<Instant>, i: nat, j: nat, k: nat, session: bool)
    requires i < j < k < |times|
    ensures FreshTokens(OpsAt(times, i, j, k, session)) && AllCanonical(OpsAt(times, i, j, k, session))
  {
    assert CanonicalUser(USER);
  }

  lemma SweepsAreExpired(times: seq<Instant>, i: nat, j: nat, k: nat, session: bool)
    requires RevivesAt(times, i, j, k, Lifetime(session))
    ensures MemorySweepsOk(OpsAt(times, i, j, k, session), SweepsAtOnly(|times|, j))
  {
    var ops, a := OpsAt(times, i, j, k, session), SweepsAtOnly(|times|, j);
    MemoryThen(times, i, j, k, session, j);
    forall x: nat | x < |ops| ensures MemorySweepOk(ops, a, x) {
      assert x != j ==> a[x] == NOTHING;
    }
  }

  lemma NoSweepsAreOk(pg: Client, ops: seq<Op>)
    ensures DatabaseSweepsOk(pg, ops, NoSweeps(|ops|))
  {
  }

  lemma AnswersDiffer(pg: Client, times: seq<Instant>, i: nat, j: nat, k: nat, session: bool)
    requires ReadsDecimals(pg.num) && RevivesAt(times, i, j, k, Lifetime(session))
    ensures MemoryAnswer(OpsAt(times, i, j, k, session), SweepsAtOnly(|times|, j), k)
         == if session then Found(None) else Consumed(None)
    ensures DatabaseAnswer(pg, OpsAt(times, i, j, k, session), NoSweeps(|times|), k)
         != if session then Found(None) else Consumed(None)
  {
    MemoryThen(times, i, j, k, session, k);
    DatabaseThen(pg, times, i, j, k, session, k);
  }

  lemma CrossingTellsApart(pg: Client, times: seq<Instant>, i: nat, j: nat, k: nat, session: bool)
    requires ReadsDecimals(pg.num) && RevivesAt(times, i, j, k, Lifetime(session))
    ensures TellsApart(pg, OpsAt(times, i, j, k, session), SweepsAtOnly(|times|, j), NoSweeps(|times|), k)
  {
    RunIsRegular(times, i, j, k, session);
    SweepsAreExpired(times, i, j, k, session);
    NoSweepsAreOk(pg, OpsAt(times, i, j, k, session));
    AnswersDiffer(pg, times, i, j, k, session);
  }

  /** Readings at which the stores can be told apart are exactly those that go back across an expiry:
      what is created at one reading has expired at a later one, and not any more at one after that. */
  lemma CanBeToldApartIff(pg: Client, times: seq<Instant>)
    requires ReadsDecimals(pg.num)
    ensures CanBeToldApart(pg, times) <==> BackAcrossExpiry(times)
  {
    if BackAcrossExpiry(times) {
      var i: nat, j: nat, k: nat :|
        RevivesAt(times, i, j, k, SESSION_LIFETIME_MS) || RevivesAt(times, i, j, k, LOGIN_FLOW_LIFETIME_MS);
      var session := RevivesAt(times, i, j, k, SESSION_LIFETIME_MS);
      CrossingTellsApart(pg, times, i, j, k, session);
      assert Times(OpsAt(times, i, j, k, session)) == times;
    } else if CanBeToldApart(pg, times) {
      var ops: seq<Op>, a: seq<Sweep>, b: seq<Sweep>, i: nat :| Times(ops) == times && TellsApart(pg, ops, a, b, i);
      assert false by {
        StoresAreIndistinguishable(pg, ops, a, b, i);
      }
    }
  }
}

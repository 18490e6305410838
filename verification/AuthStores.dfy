/** The two session stores of the control plane (apps/control-plane/src/auth-session.ts): the
    in-memory one and the Postgres one, which delete rows at different times, encode users and binding
    hashes differently and differ in how they give instants back.  Rows are keyed by the raw token: its hash is
    taken to be injective. */
module AuthStores {
  import opened JsNumbers
  import opened Timestamps
  import opened Wrappers

  const SESSION_LIFETIME_MS := 604800000
  const LOGIN_FLOW_LIFETIME_MS := 300000

  type Token = string

  // ---------------------------------------------------------------- rows

  datatype User = User(id: string, provider: string, providerUserId: string, login: string)

  datatype Session = Session(id: string, user: User, createdAt: Instant)

  datatype Flow = Flow(codeVerifier: string, returnTo: Option<string>, bindingHash: string)

  datatype Row<V> = Row(value: V, expiresAt: Instant)

  type Table<V> = map<Token, Row<V>>

  predicate Alive<V>(t: Table<V>, k: Token, now: Instant) {
    k in t && now < t[k].expiresAt
  }

  /** The columns of `auth_sessions`. */
  datatype SessionColumns = SessionColumns(id: string, githubUserId: nat, githubLogin: string, createdAt: Instant)

  /** The columns of `oauth_login_flows`; the binding hash is `BYTEA`. */
  datatype FlowColumns = FlowColumns(codeVerifier: string, returnTo: Option<string>, bindingHash: seq<Byte>)

  function GithubUser(numericId: string, login: string): User {
    User("github:" + numericId, "github", numericId, login)
  }

  /** What the columns say. */
  function Stored(row: Row<SessionColumns>): Row<Session> {
    var c := row.value;
    Row(Session(c.id, GithubUser(Decimal(c.githubUserId), c.githubLogin), c.createdAt), row.expiresAt)
  }

  /** What a lookup makes of it. */
  function Loaded(driver: Driver, row: Row<Session>): Row<Session> {
    Row(row.value.(createdAt := ReadBack(driver, row.value.createdAt)), ReadBack(driver, row.expiresAt))
  }

  /** How the Postgres store reads numbers and instants. */
  datatype Client = Client(num: IdReader, driver: Driver)

  // ---------------------------------------------------------------- hexadecimal

  function HexDigit(n: nat): char
    requires n < 16
  {
    if n < 10 then ('0' as int + n) as char else ('a' as int + n - 10) as char
  }

  function HexValue(c: char): Option<nat> {
    if '0' <= c <= '9' then Some(c as int - '0' as int)
    else if 'a' <= c <= 'f' then Some(c as int - 'a' as int + 10)
    else if 'A' <= c <= 'F' then Some(c as int - 'A' as int + 10)
    else None
  }

  /** `Buffer.from(s, "hex")`: whole digit pairs, up to the first that is not one. */
  function FromHex(s: string): seq<Byte> {
    if |s| < 2 || HexValue(s[0]).None? || HexValue(s[1]).None? then []
    else
      var b := 16 * HexValue(s[0]).value + HexValue(s[1]).value;
      if b < 256 then [b] + FromHex(s[2..]) else []
  }

  function ToHex(bytes: seq<Byte>): string {
    if bytes == [] then "" else [HexDigit(bytes[0] / 16), HexDigit(bytes[0] % 16)] + ToHex(bytes[1..])
  }

  /** Which digit stands for which value. */
  lemma HexDigitsAre(n: nat)
    requires n < 16
    ensures HexDigit(n) == "0123456789abcdef"[n]
    ensures HexValue("0123456789abcdef"[n]) == HexValue("0123456789ABCDEF"[n]) == Some(n)
  {
  }

  /** A byte is its two digits, the high one first. */
  lemma BytesAre(bytes: seq<Byte>, k: nat)
    requires k < |bytes|
    ensures |ToHex(bytes)| == 2 * |bytes|
    ensures ToHex(bytes)[2 * k] == "0123456789abcdef"[bytes[k] / 16]
    ensures ToHex(bytes)[2 * k + 1] == "0123456789abcdef"[bytes[k] % 16]
  {
    HexDigitsAre(bytes[0] / 16);
    HexDigitsAre(bytes[0] % 16);
    if k > 0 {
      BytesAre(bytes[1..], k - 1);
    } else if |bytes| > 1 {
      BytesAre(bytes[1..], 0);
    }
  }

  predicate IsLowerHex(c: char) {
    '0' <= c <= '9' || 'a' <= c <= 'f'
  }

  /** What `hex` digests look like: digit pairs in lower case. */
  predicate CanonicalHex(s: string) {
    |s| % 2 == 0 && forall i :: 0 <= i < |s| ==> IsLowerHex(s[i])
  }

  lemma {:induction false} ToHexIsCanonical(bytes: seq<Byte>)
    ensures CanonicalHex(ToHex(bytes))
  {
    if bytes != [] {
      ToHexIsCanonical(bytes[1..]);
    }
  }

  lemma {:induction false} CanonicalReadsBack(s: string)
    requires CanonicalHex(s)
    ensures ToHex(FromHex(s)) == s
  {
    if s != [] {
      assert IsLowerHex(s[0]) && IsLowerHex(s[1]);
      CanonicalReadsBack(s[2..]);
      var b := 16 * HexValue(s[0]).value + HexValue(s[1]).value;
      assert FromHex(s)[1..] == FromHex(s[2..]) && FromHex(s)[0] == b;
      assert b / 16 == HexValue(s[0]).value && b % 16 == HexValue(s[1]).value;
      assert s == [s[0], s[1]] + s[2..];
    }
  }

  /** A binding hash survives the byte column exactly when it is canonical hexadecimal. */
  lemma HexReadsBackIff(s: string)
    ensures ToHex(FromHex(s)) == s <==> CanonicalHex(s)
  {
    ToHexIsCanonical(FromHex(s));
    if CanonicalHex(s) {
      CanonicalReadsBack(s);
    }
  }

  function LoadFlow(row: FlowColumns): Flow {
    Flow(row.codeVerifier, row.returnTo, ToHex(row.bindingHash))
  }

  /** A session is read back as a GitHub user, named by the number in its row. */
  lemma StoredUserIs(row: Row<SessionColumns>)
    ensures var user := Stored(row).value.user;
            && user.id == "github:" + Decimal(row.value.githubUserId) && user.provider == "github"
            && user.providerUserId == Decimal(row.value.githubUserId) && user.login == row.value.githubLogin
  {
  }

  // ---------------------------------------------------------------- operations

  /** Random values are parameters: the raw token and the id of a session, the raw state of a flow. */
  datatype Op =
    | CreateSession(token: Token, id: string, user: User, now: Instant)
    | LookupSession(token: Token, now: Instant)
    | RevokeSession(token: Token, now: Instant)
    | CreateLoginFlow(token: Token, flow: Flow, now: Instant)
    | ConsumeLoginFlow(token: Token, now: Instant)
    | RevokeLoginFlow(token: Token, now: Instant)
    | CleanupExpired(now: Instant)

  datatype Response =
    | Created(expiresAt: Instant)
    | Found(session: Option<Row<Session>>)
    | Consumed(flow: Option<Flow>)
    | Done
    | Refused

  /** Which rows a bounded cleanup takes, of those that have expired. */
  datatype Sweep = Sweep(sessions: set<Token>, flows: set<Token>)

  const NOTHING := Sweep({}, {})

  predicate Expired<V>(t: Table<V>, keys: set<Token>, now: Instant) {
    forall k :: k in keys && k in t ==> t[k].expiresAt <= now
  }

  datatype Memory = Memory(sessions: Table<Session>, flows: Table<Flow>)

  datatype Database = Database(sessions: Table<SessionColumns>, flows: Table<FlowColumns>)

  function MemoryNext(m: Memory, op: Op, sweep: Sweep): (Memory, Response) {
    match op
    case CreateSession(k, id, user, now) =>
      var expiresAt := now + SESSION_LIFETIME_MS;
      (m.(sessions := m.sessions[k := Row(Session(id, user, now), expiresAt)]), Created(expiresAt))
    case LookupSession(k, now) =>
      (m, Found(if k != "" && Alive(m.sessions, k, now) then Some(m.sessions[k]) else None))
    case RevokeSession(k, _) => (if k == "" then m else m.(sessions := m.sessions - {k}), Done)
    case CreateLoginFlow(k, flow, now) =>
      var expiresAt := now + LOGIN_FLOW_LIFETIME_MS;
      (m.(flows := m.flows[k := Row(flow, expiresAt)]), Created(expiresAt))
    case ConsumeLoginFlow(k, now) =>
      if k == "" then (m, Consumed(None))
      else (m.(flows := m.flows - {k}), Consumed(if Alive(m.flows, k, now) then Some(m.flows[k].value) else None))
    case RevokeLoginFlow(k, _) => (if k == "" then m else m.(flows := m.flows - {k}), Done)
    case CleanupExpired(_) => (Memory(m.sessions - sweep.sessions, m.flows - sweep.flows), Done)
  }

  function Swept(d: Database, sweep: Sweep): Database {
    Database(d.sessions - sweep.sessions, d.flows - sweep.flows)
  }

  /** A flow is created after a cleanup of its own; an insert of a taken key is refused. */
  function DatabaseNext(pg: Client, d: Database, op: Op, sweep: Sweep): (Database, Response) {
    match op
    case CreateSession(k, id, user, now) =>
      var expiresAt, githubUserId := now + SESSION_LIFETIME_MS, pg.num(user.providerUserId);
      if k in d.sessions || githubUserId.None? then (d, Refused)
      else
        var row := SessionColumns(id, githubUserId.value, user.login, now);
        (d.(sessions := d.sessions[k := Row(row, expiresAt)]), Created(expiresAt))
    case LookupSession(k, now) =>
      (d, Found(if k != "" && Alive(d.sessions, k, now)
                then Some(Loaded(pg.driver, Stored(d.sessions[k]))) else None))
    case RevokeSession(k, _) => (if k == "" then d else d.(sessions := d.sessions - {k}), Done)
    case CreateLoginFlow(k, flow, now) =>
      var expiresAt, swept := now + LOGIN_FLOW_LIFETIME_MS, Swept(d, sweep);
      if k in swept.flows then (swept, Refused)
      else
        var row := FlowColumns(flow.codeVerifier, flow.returnTo, FromHex(flow.bindingHash));
        (swept.(flows := swept.flows[k := Row(row, expiresAt)]), Created(expiresAt))
    case ConsumeLoginFlow(k, now) =>
      if k == "" || !Alive(d.flows, k, now) then (d, Consumed(None))
      else (d.(flows := d.flows - {k}), Consumed(Some(LoadFlow(d.flows[k].value))))
    case RevokeLoginFlow(k, _) => (if k == "" then d else d.(flows := d.flows - {k}), Done)
    case CleanupExpired(_) => (Swept(d, sweep), Done)
  }

  // ---------------------------------------------------------------- the in-memory store in place

  /** The order in which a JavaScript map holds its keys. */
  ghost predicate Holds<V>(rows: Table<V>, order: seq<Token>) {
    && (forall i :: 0 <= i < |order| ==> order[i] in rows)
    && (forall i, j :: 0 <= i < j < |order| ==> order[i] != order[j])
  }

  ghost predicate HoldsAll<V>(rows: Table<V>, order: seq<Token>) {
    Holds(rows, order) && forall k :: k in rows ==> exists i :: 0 <= i < |order| && order[i] == k
  }

  /** One loop of `cleanupExpired`: in map order, up to `limit` expired rows. */
  method SelectExpired<V>(rows: Table<V>, order: seq<Token>, now: Instant, limit: int) returns (swept: set<Token>)
    requires Holds(rows, order)
    ensures swept <= rows.Keys && Expired(rows, swept, now)
    ensures |swept| <= limit || swept == {}
    ensures |swept| < limit ==> forall j :: 0 <= j < |order| ==> order[j] in swept || now < rows[order[j]].expiresAt
  {
    swept := {};
    var taken := 0;
    for i := 0 to |order|
      invariant swept <= rows.Keys && Expired(rows, swept, now)
      invariant forall j :: i <= j < |order| ==> order[j] !in swept
      invariant taken == |swept| && (taken <= limit || taken == 0)
      invariant forall j :: 0 <= j < i ==> order[j] in swept || now < rows[order[j]].expiresAt
    {
      if taken >= limit {
        return;
      }
      if rows[order[i]].expiresAt <= now {
        swept := swept + {order[i]};
        taken := taken + 1;
      }
    }
  }

  class InMemorySessionStore {
    var sessions: Table<Session>
    var flows: Table<Flow>

    function Abstract(): Memory
      reads this
    {
      Memory(sessions, flows)
    }

    constructor ()
      ensures Abstract() == Memory(map[], map[])
    {
      sessions, flows := map[], map[];
    }

    method CreateSession(token: Token, id: string, user: User, now: Instant) returns (expiresAt: Instant)
      modifies this
      ensures (Abstract(), Created(expiresAt))
           == MemoryNext(old(Abstract()), Op.CreateSession(token, id, user, now), NOTHING)
      ensures expiresAt == now + 604800000 && flows == old(flows)
      ensures sessions == old(sessions)[token := Row(Session(id, user, now), now + 604800000)]
    {
      expiresAt := now + SESSION_LIFETIME_MS;
      sessions := sessions[token := Row(Session(id, user, now), expiresAt)];
    }

    method LookupSession(token: Token, now: Instant) returns (session: Option<Row<Session>>)
      ensures (Abstract(), Found(session)) == MemoryNext(Abstract(), Op.LookupSession(token, now), NOTHING)
      ensures session == if token != "" && token in sessions && now < sessions[token].expiresAt
                         then Some(sessions[token]) else None
    {
      if token == "" || token !in sessions {
        return None;
      }
      session := if sessions[token].expiresAt <= now then None else Some(sessions[token]);
    }

    method RevokeSession(token: Token, now: Instant)
      modifies this
      ensures (Abstract(), Done) == MemoryNext(old(Abstract()), Op.RevokeSession(token, now), NOTHING)
      ensures sessions == (if token == "" then old(sessions) else old(sessions) - {token}) && flows == old(flows)
    {
      if token == "" {
        return;
      }
      sessions := sessions - {token};
    }

    method RevokeLoginFlow(token: Token, now: Instant)
      modifies this
      ensures (Abstract(), Done) == MemoryNext(old(Abstract()), Op.RevokeLoginFlow(token, now), NOTHING)
      ensures flows == (if token == "" then old(flows) else old(flows) - {token}) && sessions == old(sessions)
    {
      if token == "" {
        return;
      }
      flows := flows - {token};
    }

    method CreateLoginFlow(token: Token, flow: Flow, now: Instant) returns (expiresAt: Instant)
      modifies this
      ensures (Abstract(), Created(expiresAt))
           == MemoryNext(old(Abstract()), Op.CreateLoginFlow(token, flow, now), NOTHING)
      ensures expiresAt == now + 300000 && sessions == old(sessions)
      ensures flows == old(flows)[token := Row(flow, now + 300000)]
    {
      expiresAt := now + LOGIN_FLOW_LIFETIME_MS;
      flows := flows[token := Row(flow, expiresAt)];
    }

    /** Deletes first and judges expiry afterwards. */
    method ConsumeLoginFlow(token: Token, now: Instant) returns (flow: Option<Flow>)
      modifies this
      ensures (Abstract(), Consumed(flow)) == MemoryNext(old(Abstract()), Op.ConsumeLoginFlow(token, now), NOTHING)
      ensures flows == (if token == "" then old(flows) else old(flows) - {token}) && sessions == old(sessions)
      ensures flow == if token != "" && token in old(flows) && now < old(flows)[token].expiresAt
                      then Some(old(flows)[token].value) else None
    {
      if token == "" {
        return None;
      }
      var found := if token in flows then Some(flows[token]) else None;
      flows := flows - {token};
      flow := if found.None? || found.value.expiresAt <= now then None else Some(found.value.value);
    }

    method CleanupExpired(now: Instant, limit: int, sessionOrder: seq<Token>, flowOrder: seq<Token>)
      returns (counts: (nat, nat), swept: Sweep)
      requires HoldsAll(sessions, sessionOrder) && HoldsAll(flows, flowOrder)
      modifies this
      ensures (Abstract(), Done) == MemoryNext(old(Abstract()), Op.CleanupExpired(now), swept)
      ensures Expired(old(sessions), swept.sessions, now) && Expired(old(flows), swept.flows, now)
      ensures counts == (|swept.sessions|, |swept.flows|)
      ensures counts.0 < limit ==> forall k :: k in sessions ==> now < sessions[k].expiresAt
      ensures counts.1 < limit ==> forall k :: k in flows ==> now < flows[k].expiresAt
    {
      var deadSessions := SelectExpired(sessions, sessionOrder, now, limit);
      sessions := sessions - deadSessions;
      var deadFlows := SelectExpired(flows, flowOrder, now, limit);
      flows := flows - deadFlows;
      swept := Sweep(deadSessions, deadFlows);
      counts := (|deadSessions|, |deadFlows|);
    }
  }

  // ---------------------------------------------------------------- the two agree on what is alive

  /** What GitHub users look like once they are users of this system. */
  ghost predicate CanonicalUser(user: User) {
    exists n: nat :: n <= MAX_SAFE_INTEGER && user == GithubUser(Decimal(n), user.login)
  }

  ghost predicate Canonical(op: Op) {
    && (op.CreateSession? ==> CanonicalUser(op.user))
    && (op.CreateLoginFlow? ==> CanonicalHex(op.flow.bindingHash))
  }

  lemma UserReadsBack(num: IdReader, user: User)
    requires ReadsDecimals(num) && CanonicalUser(user)
    ensures num(user.providerUserId).Some?
    ensures GithubUser(Decimal(num(user.providerUserId).value), user.login) == user
  {
    var n: nat :| n <= MAX_SAFE_INTEGER && user == GithubUser(Decimal(n), user.login);
    assert num(Decimal(n)) == Some(n);
  }

  ghost predicate SessionsAgree(m: Table<Session>, d: Table<SessionColumns>, now: Instant) {
    forall k: Token :: (Alive(m, k, now) <==> Alive(d, k, now)) && (Alive(m, k, now) ==> m[k] == Stored(d[k]))
  }

  ghost predicate FlowsAgree(m: Table<Flow>, d: Table<FlowColumns>, now: Instant) {
    forall k: Token ::
      && (Alive(m, k, now) <==> Alive(d, k, now))
      && (Alive(m, k, now) ==> m[k] == Row(LoadFlow(d[k].value), d[k].expiresAt))
  }

  /** The rows that have not expired by `now` are the same; the others may differ in any way. */
  ghost predicate Agree(m: Memory, d: Database, now: Instant) {
    SessionsAgree(m.sessions, d.sessions, now) && FlowsAgree(m.flows, d.flows, now)
  }

  predicate SweepsExpired(m: Memory, d: Database, now: Instant, sweepM: Sweep, sweepD: Sweep) {
    && Expired(m.sessions, sweepM.sessions, now) && Expired(m.flows, sweepM.flows, now)
    && Expired(d.sessions, sweepD.sessions, now) && Expired(d.flows, sweepD.flows, now)
  }

  /** The key a create takes is new to both stores. */
  predicate IsFresh(m: Memory, d: Database, op: Op) {
    && (op.CreateSession? ==> op.token !in m.sessions && op.token !in d.sessions)
    && (op.CreateLoginFlow? ==> op.token !in m.flows && op.token !in d.flows)
  }

  predicate StayExpired<V>(t: Table<V>, now: Instant, later: Instant) {
    forall k :: k in t && t[k].expiresAt <= now ==> t[k].expiresAt <= later
  }

  /** What has expired at `now` has at `later`, which may be before `now`. */
  predicate ExpiredStays(m: Memory, d: Database, now: Instant, later: Instant) {
    && StayExpired(m.sessions, now, later) && StayExpired(m.flows, now, later)
    && StayExpired(d.sessions, now, later) && StayExpired(d.flows, now, later)
  }

  lemma InsertSession(m: Table<Session>, d: Table<SessionColumns>, k: Token, row: Row<SessionColumns>, now: Instant)
    requires SessionsAgree(m, d, now)
    ensures SessionsAgree(m[k := Stored(row)], d[k := row], now)
  {
  }

  lemma InsertFlow(m: Table<Flow>, d: Table<FlowColumns>, k: Token, row: Row<FlowColumns>, now: Instant)
    requires FlowsAgree(m, d, now)
    ensures FlowsAgree(m[k := Row(LoadFlow(row.value), row.expiresAt)], d[k := row], now)
  {
  }

  /** Both may lose any rows, as long as they lose the same of the rows that are alive. */
  lemma DropSessions(m: Table<Session>, d: Table<SessionColumns>, now: Instant, a: set<Token>, b: set<Token>)
    requires SessionsAgree(m, d, now) && forall k: Token :: Alive(m, k, now) ==> (k in a <==> k in b)
    ensures SessionsAgree(m - a, d - b, now)
  {
  }

  lemma DropFlows(m: Table<Flow>, d: Table<FlowColumns>, now: Instant, a: set<Token>, b: set<Token>)
    requires FlowsAgree(m, d, now) && forall k: Token :: Alive(m, k, now) ==> (k in a <==> k in b)
    ensures FlowsAgree(m - a, d - b, now)
  {
  }

  lemma SweepsKeepAgreement(m: Memory, d: Database, now: Instant, sweepM: Sweep, sweepD: Sweep)
    requires Agree(m, d, now) && SweepsExpired(m, d, now, sweepM, sweepD)
    ensures Agree(Memory(m.sessions - sweepM.sessions, m.flows - sweepM.flows), Swept(d, sweepD), now)
  {
    assert forall k: Token :: Alive(m.sessions, k, now) ==> Alive(d.sessions, k, now);
    assert forall k: Token :: Alive(m.flows, k, now) ==> Alive(d.flows, k, now);
    DropSessions(m.sessions, d.sessions, now, sweepM.sessions, sweepD.sessions);
    DropFlows(m.flows, d.flows, now, sweepM.flows, sweepD.flows);
  }

  lemma SessionStepAgrees(pg: Client, m: Memory, d: Database, op: Op, later: Instant)
    requires op.CreateSession? || op.LookupSession? || op.RevokeSession?
    requires ReadsDecimals(pg.num) && Agree(m, d, later) && Canonical(op) && IsFresh(m, d, op)
    ensures Agree(MemoryNext(m, op, NOTHING).0, DatabaseNext(pg, d, op, NOTHING).0, later)
  {
    if op.CreateSession? {
      UserReadsBack(pg.num, op.user);
      var row := SessionColumns(op.id, pg.num(op.user.providerUserId).value, op.user.login, op.now);
      InsertSession(m.sessions, d.sessions, op.token, Row(row, op.now + SESSION_LIFETIME_MS), later);
    } else if op.RevokeSession? {
      DropSessions(m.sessions, d.sessions, later, {op.token}, {op.token});
    }
  }

  lemma CreateFlowAgrees(pg: Client, m: Memory, d: Database, op: Op, sweepD: Sweep, later: Instant)
    requires op.CreateLoginFlow? && Agree(m, d, later) && Canonical(op) && IsFresh(m, d, op)
    requires SweepsExpired(m, d, later, NOTHING, sweepD)
    ensures Agree(MemoryNext(m, op, NOTHING).0, DatabaseNext(pg, d, op, sweepD).0, later)
  {
    SweepsKeepAgreement(m, d, later, NOTHING, sweepD);
    assert Memory(m.sessions - {}, m.flows - {}) == m;
    HexReadsBackIff(op.flow.bindingHash);
    var row := FlowColumns(op.flow.codeVerifier, op.flow.returnTo, FromHex(op.flow.bindingHash));
    InsertFlow(m.flows, Swept(d, sweepD).flows, op.token, Row(row, op.now + LOGIN_FLOW_LIFETIME_MS), later);
  }

  lemma FlowStepAgrees(pg: Client, m: Memory, d: Database, op: Op, later: Instant)
    requires op.ConsumeLoginFlow? || op.RevokeLoginFlow?
    requires Agree(m, d, op.now) && Agree(m, d, later) && ExpiredStays(m, d, op.now, later)
    ensures Agree(MemoryNext(m, op, NOTHING).0, DatabaseNext(pg, d, op, NOTHING).0, later)
  {
    DropFlows(m.flows, d.flows, later, {op.token}, {op.token});
    if !Alive(d.flows, op.token, op.now) {
      assert !Alive(d.flows, op.token, later);
      DropFlows(m.flows, d.flows, later, {op.token}, {});
      assert d.flows - {} == d.flows;
    }
  }

  lemma SweepsExpiredLater(m: Memory, d: Database, now: Instant, later: Instant, sweepM: Sweep, sweepD: Sweep)
    requires SweepsExpired(m, d, now, sweepM, sweepD) && ExpiredStays(m, d, now, later)
    ensures SweepsExpired(m, d, later, sweepM, sweepD)
  {
  }

  /** One operation keeps the agreement at any time at which what has expired still has. */
  lemma StepKeepsAgreement(pg: Client, m: Memory, d: Database, op: Op, sweepM: Sweep, sweepD: Sweep, later: Instant)
    requires ReadsDecimals(pg.num) && Agree(m, d, op.now) && Agree(m, d, later) && Canonical(op) && IsFresh(m, d, op)
    requires SweepsExpired(m, d, op.now, sweepM, sweepD) && ExpiredStays(m, d, op.now, later)
    ensures Agree(MemoryNext(m, op, sweepM).0, DatabaseNext(pg, d, op, sweepD).0, later)
  {
    SweepsExpiredLater(m, d, op.now, later, sweepM, sweepD);
    if op.CreateSession? || op.LookupSession? || op.RevokeSession? {
      SessionStepAgrees(pg, m, d, op, later);
    } else if op.CreateLoginFlow? {
      CreateFlowAgrees(pg, m, d, op, sweepD, later);
    } else if op.CleanupExpired? {
      SweepsKeepAgreement(m, d, later, sweepM, sweepD);
    } else {
      FlowStepAgrees(pg, m, d, op, later);
    }
  }

  /** What becomes of an answer on its way back from Postgres: a found session's instants are read back. */
  function Received(driver: Driver, answer: Response): Response {
    if answer.Found? && answer.session.Some? then Found(Some(Loaded(driver, answer.session.value))) else answer
  }

  /** One operation at the current time: the same answer from both stores, but for how instants are read
      back, and they still agree. */
  lemma StepAgrees(pg: Client, m: Memory, d: Database, op: Op, sweepM: Sweep, sweepD: Sweep)
    requires ReadsDecimals(pg.num) && Agree(m, d, op.now) && Canonical(op) && IsFresh(m, d, op)
    requires SweepsExpired(m, d, op.now, sweepM, sweepD)
    ensures DatabaseNext(pg, d, op, sweepD).1 == Received(pg.driver, MemoryNext(m, op, sweepM).1)
    ensures Agree(MemoryNext(m, op, sweepM).0, DatabaseNext(pg, d, op, sweepD).0, op.now)
  {
    StepKeepsAgreement(pg, m, d, op, sweepM, sweepD, op.now);
    if op.CreateSession? {
      UserReadsBack(pg.num, op.user);
    } else if op.LookupSession? {
      assert Alive(m.sessions, op.token, op.now) <==> Alive(d.sessions, op.token, op.now);
    } else if op.ConsumeLoginFlow? {
      assert Alive(m.flows, op.token, op.now) <==> Alive(d.flows, op.token, op.now);
    }
  }

  // ---------------------------------------------------------------- runs

  function MemoryAfter(ops: seq<Op>, sweeps: seq<Sweep>, n: nat): Memory
    requires n <= |ops| == |sweeps|
  {
    if n == 0 then Memory(map[], map[]) else MemoryNext(MemoryAfter(ops, sweeps, n - 1), ops[n - 1], sweeps[n - 1]).0
  }

  function DatabaseAfter(pg: Client, ops: seq<Op>, sweeps: seq<Sweep>, n: nat): Database
    requires n <= |ops| == |sweeps|
  {
    if n == 0 then Database(map[], map[])
    else DatabaseNext(pg, DatabaseAfter(pg, ops, sweeps, n - 1), ops[n - 1], sweeps[n - 1]).0
  }

  /** What the in-memory store answers to operation `i`. */
  function MemoryAnswer(ops: seq<Op>, sweeps: seq<Sweep>, i: nat): Response
    requires i < |ops| == |sweeps|
  {
    MemoryNext(MemoryAfter(ops, sweeps, i), ops[i], sweeps[i]).1
  }

  function DatabaseAnswer(pg: Client, ops: seq<Op>, sweeps: seq<Sweep>, i: nat): Response
    requires i < |ops| == |sweeps|
  {
    DatabaseNext(pg, DatabaseAfter(pg, ops, sweeps, i), ops[i], sweeps[i]).1
  }

  predicate MemorySweepOk(ops: seq<Op>, sweeps: seq<Sweep>, i: nat)
    requires i < |ops| == |sweeps|
  {
    var m := MemoryAfter(ops, sweeps, i);
    Expired(m.sessions, sweeps[i].sessions, ops[i].now) && Expired(m.flows, sweeps[i].flows, ops[i].now)
  }

  predicate DatabaseSweepOk(pg: Client, ops: seq<Op>, sweeps: seq<Sweep>, i: nat)
    requires i < |ops| == |sweeps|
  {
    var d := DatabaseAfter(pg, ops, sweeps, i);
    Expired(d.sessions, sweeps[i].sessions, ops[i].now) && Expired(d.flows, sweeps[i].flows, ops[i].now)
  }

  /** Every sweep takes expired rows only; which, and how many, is open. */
  ghost predicate MemorySweepsOk(ops: seq<Op>, sweeps: seq<Sweep>)
    requires |ops| == |sweeps|
  {
    forall i: nat :: i < |ops| ==> MemorySweepOk(ops, sweeps, i)
  }

  ghost predicate DatabaseSweepsOk(pg: Client, ops: seq<Op>, sweeps: seq<Sweep>)
    requires |ops| == |sweeps|
  {
    forall i: nat :: i < |ops| ==> DatabaseSweepOk(pg, ops, sweeps, i)
  }

  function Times(ops: seq<Op>): seq<Instant> {
    seq(|ops|, i requires 0 <= i < |ops| => ops[i].now)
  }

  /** What is stored with a lifetime of `lifetime` at reading `i` has expired at `j` and not at the later `k`. */
  predicate RevivesAt(times: seq<Instant>, i: nat, j: nat, k: nat, lifetime: int) {
    i < j < k < |times| && times[k] < times[i] + lifetime <= times[j]
  }

  /** The clock goes back across the expiry of something that may be stored. */
  ghost predicate BackAcrossExpiry(times: seq<Instant>) {
    exists i: nat, j: nat, k: nat ::
      RevivesAt(times, i, j, k, SESSION_LIFETIME_MS) || RevivesAt(times, i, j, k, LOGIN_FLOW_LIFETIME_MS)
  }

  lemma ForwardClockIsFine(times: seq<Instant>)
    requires forall i, j :: 0 <= i < j < |times| ==> times[i] <= times[j]
    ensures !BackAcrossExpiry(times)
  {
  }

  /** No token and no state is issued twice. */
  ghost predicate FreshTokens(ops: seq<Op>) {
    && (forall i, j :: 0 <= i < j < |ops| && ops[i].CreateSession? && ops[j].CreateSession? ==>
          ops[i].token != ops[j].token)
    && (forall i, j :: 0 <= i < j < |ops| && ops[i].CreateLoginFlow? && ops[j].CreateLoginFlow? ==>
          ops[i].token != ops[j].token)
  }

  /** Created before operation `n`, to expire at `expiresAt`. */
  ghost predicate SessionIssued(ops: seq<Op>, n: nat, k: Token, expiresAt: Instant) {
    exists i: nat :: i < n && i < |ops| && ops[i].CreateSession? && ops[i].token == k
      && ops[i].now + SESSION_LIFETIME_MS == expiresAt
  }

  ghost predicate FlowIssued(ops: seq<Op>, n: nat, k: Token, expiresAt: Instant) {
    exists i: nat :: i < n && i < |ops| && ops[i].CreateLoginFlow? && ops[i].token == k
      && ops[i].now + LOGIN_FLOW_LIFETIME_MS == expiresAt
  }

  function Key(op: Op): Token {
    if op.CleanupExpired? then "" else op.token
  }

  lemma {:induction false} MemoryRowsIssued(ops: seq<Op>, sweeps: seq<Sweep>, n: nat, k: Token)
    requires n <= |ops| == |sweeps|
    ensures var m := MemoryAfter(ops, sweeps, n);
            && (k in m.sessions ==> SessionIssued(ops, n, k, m.sessions[k].expiresAt)
                                    && m.sessions[k].expiresAt == m.sessions[k].value.createdAt + SESSION_LIFETIME_MS)
            && (k in m.flows ==> FlowIssued(ops, n, k, m.flows[k].expiresAt))
  {
    if n > 0 {
      MemoryRowsIssued(ops, sweeps, n - 1, k);
    }
  }

  lemma {:induction false} DatabaseRowsIssued(pg: Client, ops: seq<Op>, sweeps: seq<Sweep>, n: nat, k: Token)
    requires n <= |ops| == |sweeps|
    ensures var d := DatabaseAfter(pg, ops, sweeps, n);
            && (k in d.sessions ==> SessionIssued(ops, n, k, d.sessions[k].expiresAt))
            && (k in d.flows ==> FlowIssued(ops, n, k, d.flows[k].expiresAt))
  {
    if n > 0 {
      DatabaseRowsIssued(pg, ops, sweeps, n - 1, k);
    }
  }

  ghost predicate AllCanonical(ops: seq<Op>) {
    forall i :: 0 <= i < |ops| ==> Canonical(ops[i])
  }

  ghost predicate RunOk(pg: Client, ops: seq<Op>) {
    ReadsDecimals(pg.num) && FreshTokens(ops) && AllCanonical(ops) && !BackAcrossExpiry(Times(ops))
  }

  lemma IssuedTokensAreFresh(pg: Client, ops: seq<Op>, a: seq<Sweep>, b: seq<Sweep>, n: nat)
    requires |a| == |b| == |ops| && n < |ops| && FreshTokens(ops)
    ensures IsFresh(MemoryAfter(ops, a, n), DatabaseAfter(pg, ops, b, n), ops[n])
  {
    MemoryRowsIssued(ops, a, n, Key(ops[n]));
    DatabaseRowsIssued(pg, ops, b, n, Key(ops[n]));
    assert ops[n].CreateSession? ==> forall e :: !SessionIssued(ops, n, ops[n].token, e);
    assert ops[n].CreateLoginFlow? ==> forall e :: !FlowIssued(ops, n, ops[n].token, e);
  }

  /** Of what was created by reading `i`, all that has expired then has by a later reading `l` too. */
  lemma IssuedStaysExpired(ops: seq<Op>, i: nat, l: nat, k: Token, expiresAt: Instant)
    requires i <= l < |ops| && !BackAcrossExpiry(Times(ops)) && expiresAt <= ops[i].now
    requires SessionIssued(ops, i, k, expiresAt) || FlowIssued(ops, i, k, expiresAt)
    ensures expiresAt <= ops[l].now
  {
    if i < l {
      var c: nat :| c < i && ops[c].now + (if ops[c].CreateSession? then SESSION_LIFETIME_MS
                                           else LOGIN_FLOW_LIFETIME_MS) == expiresAt;
      assert !RevivesAt(Times(ops), c, i, l, SESSION_LIFETIME_MS);
      assert !RevivesAt(Times(ops), c, i, l, LOGIN_FLOW_LIFETIME_MS);
    }
  }

  lemma RowsStayExpired(pg: Client, ops: seq<Op>, a: seq<Sweep>, b: seq<Sweep>, i: nat, l: nat)
    requires |a| == |b| == |ops| && i <= l < |ops| && !BackAcrossExpiry(Times(ops))
    ensures ExpiredStays(MemoryAfter(ops, a, i), DatabaseAfter(pg, ops, b, i), ops[i].now, ops[l].now)
  {
    var m, d := MemoryAfter(ops, a, i), DatabaseAfter(pg, ops, b, i);
    forall k | k in m.sessions && m.sessions[k].expiresAt <= ops[i].now ensures m.sessions[k].expiresAt <= ops[l].now {
      MemoryRowsIssued(ops, a, i, k);
      IssuedStaysExpired(ops, i, l, k, m.sessions[k].expiresAt);
    }
    forall k | k in m.flows && m.flows[k].expiresAt <= ops[i].now ensures m.flows[k].expiresAt <= ops[l].now {
      MemoryRowsIssued(ops, a, i, k);
      IssuedStaysExpired(ops, i, l, k, m.flows[k].expiresAt);
    }
    forall k | k in d.sessions && d.sessions[k].expiresAt <= ops[i].now ensures d.sessions[k].expiresAt <= ops[l].now {
      DatabaseRowsIssued(pg, ops, b, i, k);
      IssuedStaysExpired(ops, i, l, k, d.sessions[k].expiresAt);
    }
    forall k | k in d.flows && d.flows[k].expiresAt <= ops[i].now ensures d.flows[k].expiresAt <= ops[l].now {
      DatabaseRowsIssued(pg, ops, b, i, k);
      IssuedStaysExpired(ops, i, l, k, d.flows[k].expiresAt);
    }
  }

  lemma SweepsAt(pg: Client, ops: seq<Op>, a: seq<Sweep>, b: seq<Sweep>, i: nat)
    requires |a| == |b| == |ops| && i < |ops| && MemorySweepsOk(ops, a) && DatabaseSweepsOk(pg, ops, b)
    ensures SweepsExpired(MemoryAfter(ops, a, i), DatabaseAfter(pg, ops, b, i), ops[i].now, a[i], b[i])
  {
    assert MemorySweepOk(ops, a, i) && DatabaseSweepOk(pg, ops, b, i);
  }

  /** One more operation, seen at any later reading `l`. */
  lemma OneMoreAgrees(pg: Client, ops: seq<Op>, a: seq<Sweep>, b: seq<Sweep>, i: nat, l: nat)
    requires |a| == |b| == |ops| && i < l < |ops| && RunOk(pg, ops)
    requires MemorySweepsOk(ops, a) && DatabaseSweepsOk(pg, ops, b)
    requires Agree(MemoryAfter(ops, a, i), DatabaseAfter(pg, ops, b, i), ops[i].now)
    requires Agree(MemoryAfter(ops, a, i), DatabaseAfter(pg, ops, b, i), ops[l].now)
    ensures Agree(MemoryAfter(ops, a, i + 1), DatabaseAfter(pg, ops, b, i + 1), ops[l].now)
  {
    IssuedTokensAreFresh(pg, ops, a, b, i);
    SweepsAt(pg, ops, a, b, i);
    RowsStayExpired(pg, ops, a, b, i, l);
    StepKeepsAgreement(pg, MemoryAfter(ops, a, i), DatabaseAfter(pg, ops, b, i), ops[i], a[i], b[i], ops[l].now);
  }

  /** After `n` operations the stores agree on what is alive at each of the readings to come. */
  lemma {:induction false} RunsAgree(pg: Client, ops: seq<Op>, a: seq<Sweep>, b: seq<Sweep>, n: nat, l: nat)
    requires |a| == |b| == |ops| && n <= l < |ops| && RunOk(pg, ops)
    requires MemorySweepsOk(ops, a) && DatabaseSweepsOk(pg, ops, b)
    ensures Agree(MemoryAfter(ops, a, n), DatabaseAfter(pg, ops, b, n), ops[l].now)
  {
    if n == 0 {
      assert Agree(Memory(map[], map[]), Database(map[], map[]), ops[l].now);
    } else {
      var i: nat := n - 1;
      RunsAgree(pg, ops, a, b, i, i);
      RunsAgree(pg, ops, a, b, i, l);
      OneMoreAgrees(pg, ops, a, b, i, l);
    }
  }

  /** The two stores give the same answers to any sequence of operations, whatever either has swept, but
      for the instants of a found session, which Postgres gives as they are read back: it is found by both
      or by neither, with one id and one user. */
  lemma StoresAreIndistinguishable(pg: Client, ops: seq<Op>, a: seq<Sweep>, b: seq<Sweep>, i: nat)
    requires |a| == |b| == |ops| && i < |ops| && RunOk(pg, ops)
    requires MemorySweepsOk(ops, a) && DatabaseSweepsOk(pg, ops, b)
    ensures var m, d := MemoryAnswer(ops, a, i), DatabaseAnswer(pg, ops, b, i);
            && d == Received(pg.driver, m)
            && (!ops[i].LookupSession? ==> d == m)
            && (ops[i].LookupSession? ==>
                  && m.Found? && d.Found? && (m.session.Some? <==> d.session.Some?)
                  && (m.session.Some? ==> m.session.value.value.id == d.session.value.value.id
                                          && m.session.value.value.user == d.session.value.value.user))
  {
    RunsAgree(pg, ops, a, b, i, i);
    IssuedTokensAreFresh(pg, ops, a, b, i);
    SweepsAt(pg, ops, a, b, i);
    StepAgrees(pg, MemoryAfter(ops, a, i), DatabaseAfter(pg, ops, b, i), ops[i], a[i], b[i]);
  }

  /** The whole answers are equal exactly when no session is found, or one that was created on a whole
      second, or columns are read as text. */
  lemma AnswersAreEqualIff(pg: Client, ops: seq<Op>, a: seq<Sweep>, b: seq<Sweep>, i: nat)
    requires |a| == |b| == |ops| && i < |ops| && RunOk(pg, ops)
    requires MemorySweepsOk(ops, a) && DatabaseSweepsOk(pg, ops, b)
    ensures var m := MemoryAnswer(ops, a, i);
            DatabaseAnswer(pg, ops, b, i) == m <==>
              pg.driver.ReturnsText? || !m.Found? || m.session.None? || m.session.value.value.createdAt % 1000 == 0
  {
    StoresAreIndistinguishable(pg, ops, a, b, i);
    MemoryRowsIssued(ops, a, i, Key(ops[i]));
  }

  /** A session created between two seconds is looked up with other instants than it was created with. */
  lemma SecondsAreCut(num: IdReader, id: string, user: User)
    requires ReadsDecimals(num) && CanonicalUser(user)
    ensures var ops := [CreateSession("s", id, user, 1500), LookupSession("s", 1500)];
            && MemoryAnswer(ops, NoSweeps(2), 1) == Found(Some(Row(Session(id, user, 1500), 604801500)))
            && DatabaseAnswer(Client(num, ReturnsDates), ops, NoSweeps(2), 1)
               == Found(Some(Row(Session(id, user, 1000), 604801000)))
  {
    var ops, none := [CreateSession("s", id, user, 1500), LookupSession("s", 1500)], NoSweeps(2);
    UserReadsBack(num, user);
    var row := SessionColumns(id, num(user.providerUserId).value, user.login, 1500);
    assert MemoryAfter(ops, none, 0) == Memory(map[], map[]);
    assert MemoryAfter(ops, none, 1) == Memory(map["s" := Row(Session(id, user, 1500), 604801500)], map[]);
    assert DatabaseAfter(Client(num, ReturnsDates), ops, none, 0) == Database(map[], map[]);
    assert DatabaseAfter(Client(num, ReturnsDates), ops, none, 1) == Database(map["s" := Row(row, 604801500)], map[]);
  }

  /** What either store answers when a session is created, and what a lookup then finds, before and after
      the seven days are over. */
  lemma SessionLivesSevenDays(pg: Client, m: Memory, d: Database, k: Token, id: string, user: User, now: Instant,
                              later: Instant)
    requires ReadsDecimals(pg.num) && CanonicalUser(user) && k != "" && k !in d.sessions
    ensures var (m', created) := MemoryNext(m, CreateSession(k, id, user, now), NOTHING);
            && created == Created(now + 604800000)
            && MemoryNext(m', LookupSession(k, later), NOTHING).1
               == Found(if later < now + 604800000 then Some(Row(Session(id, user, now), now + 604800000)) else None)
    ensures var (d', created) := DatabaseNext(pg, d, CreateSession(k, id, user, now), NOTHING);
            && created == Created(now + 604800000)
            && DatabaseNext(pg, d', LookupSession(k, later), NOTHING).1
               == Found(if later < now + 604800000
                        then Some(Loaded(pg.driver, Row(Session(id, user, now), now + 604800000))) else None)
  {
    UserReadsBack(pg.num, user);
  }

  /** PostgreSQL refuses a token that is taken, after the sweep that a flow's creation begins with, and a user
      whose id is no number; no row changes but what is swept. */
  lemma TakenKeysAreRefused(pg: Client, d: Database, k: Token, id: string, user: User, flow: Flow, now: Instant,
                            sweep: Sweep)
    ensures k in d.sessions || pg.num(user.providerUserId).None? ==>
              DatabaseNext(pg, d, CreateSession(k, id, user, now), sweep) == (d, Refused)
    ensures k in d.flows && k !in sweep.flows ==>
              DatabaseNext(pg, d, CreateLoginFlow(k, flow, now), sweep)
              == (Database(d.sessions - sweep.sessions, d.flows - sweep.flows), Refused)
  {
  }

  /** A login flow can be consumed for five minutes. */
  lemma MemoryFlowLivesFiveMinutes(m: Memory, k: Token, flow: Flow, now: Instant, later: Instant)
    requires k != ""
    ensures var (m', created) := MemoryNext(m, CreateLoginFlow(k, flow, now), NOTHING);
            && created == Created(now + 300000)
            && MemoryNext(m', ConsumeLoginFlow(k, later), NOTHING).1
               == Consumed(if later < now + 300000 then Some(flow) else None)
  {
  }

  lemma DatabaseFlowLivesFiveMinutes(pg: Client, d: Database, k: Token, flow: Flow, now: Instant, later: Instant)
    requires CanonicalHex(flow.bindingHash) && k != "" && k !in d.flows
    ensures var (d', created) := DatabaseNext(pg, d, CreateLoginFlow(k, flow, now), NOTHING);
            && created == Created(now + 300000)
            && DatabaseNext(pg, d', ConsumeLoginFlow(k, later), NOTHING).1
               == Consumed(if later < now + 300000 then Some(flow) else None)
  {
    HexReadsBackIff(flow.bindingHash);
    assert k !in Swept(d, NOTHING).flows;
  }

  function NoSweeps(n: nat): (s: seq<Sweep>)
    ensures |s| == n && forall i :: 0 <= i < n ==> s[i] == NOTHING
  {
    if n == 0 then [] else NoSweeps(n - 1) + [NOTHING]
  }

  /** Cleanup is unobservable: whatever either store sweeps and whenever, its answers are those of a
      store that never sweeps. */
  lemma {:induction false} CleanupIsUnobservable(pg: Client, ops: seq<Op>, a: seq<Sweep>, b: seq<Sweep>, i: nat)
    requires |a| == |b| == |ops| && i < |ops| && RunOk(pg, ops)
    requires MemorySweepsOk(ops, a) && DatabaseSweepsOk(pg, ops, b)
    ensures MemoryAnswer(ops, a, i) == MemoryAnswer(ops, NoSweeps(|ops|), i)
    ensures DatabaseAnswer(pg, ops, b, i) == DatabaseAnswer(pg, ops, NoSweeps(|ops|), i)
  {
    var none, text := NoSweeps(|ops|), Client(pg.num, ReturnsText);
    StoresAreIndistinguishable(text, ops, a, none, i);
    StoresAreIndistinguishable(text, ops, none, none, i);
    StoresAreIndistinguishable(pg, ops, none, none, i);
    StoresAreIndistinguishable(pg, ops, none, b, i);
  }

  // ---------------------------------------------------------------- one-time flows

  lemma {:induction false} GoneStaysGone(pg: Client, ops: seq<Op>, sweeps: seq<Sweep>, i: nat, j: nat, k: Token)
    requires i <= j <= |ops| == |sweeps|
    requires k !in DatabaseAfter(pg, ops, sweeps, i).flows
    requires forall l: nat :: i <= l < j ==> !(ops[l].CreateLoginFlow? && ops[l].token == k)
    ensures k !in DatabaseAfter(pg, ops, sweeps, j).flows
  {
    if i < j {
      GoneStaysGone(pg, ops, sweeps, i, j - 1, k);
    }
  }

  /** A login flow is consumed at most once from Postgres, whatever the clock does. */
  lemma FlowIsConsumedOnce(pg: Client, ops: seq<Op>, sweeps: seq<Sweep>, i: nat, j: nat)
    requires i < j < |ops| == |sweeps| && FreshTokens(ops)
    requires ops[i].ConsumeLoginFlow? && ops[j].ConsumeLoginFlow? && ops[i].token == ops[j].token
    requires DatabaseAnswer(pg, ops, sweeps, i).flow.Some?
    ensures DatabaseAnswer(pg, ops, sweeps, j) == Consumed(None)
  {
    var k := ops[i].token;
    DatabaseRowsIssued(pg, ops, sweeps, i, k);
    var c: nat :| c < i && ops[c].CreateLoginFlow? && ops[c].token == k;
    GoneStaysGone(pg, ops, sweeps, i + 1, j, k);
  }

  lemma {:induction false} GoneFromMemoryStaysGone(ops: seq<Op>, sweeps: seq<Sweep>, i: nat, j: nat, k: Token)
    requires i <= j <= |ops| == |sweeps|
    requires k !in MemoryAfter(ops, sweeps, i).flows
    requires forall l: nat :: i <= l < j ==> !(ops[l].CreateLoginFlow? && ops[l].token == k)
    ensures k !in MemoryAfter(ops, sweeps, j).flows
  {
    if i < j {
      GoneFromMemoryStaysGone(ops, sweeps, i, j - 1, k);
    }
  }

  /** Nor from memory, where even a refused attempt is the last one. */
  lemma MemoryFlowIsConsumedOnce(ops: seq<Op>, sweeps: seq<Sweep>, i: nat, j: nat)
    requires i < j < |ops| == |sweeps| && FreshTokens(ops)
    requires ops[i].ConsumeLoginFlow? && ops[j].ConsumeLoginFlow? && ops[i].token == ops[j].token
    requires ops[i].token in MemoryAfter(ops, sweeps, i).flows
    ensures MemoryAnswer(ops, sweeps, j) == Consumed(None)
  {
    var k := ops[i].token;
    MemoryRowsIssued(ops, sweeps, i, k);
    var c: nat :| c < i && ops[c].CreateLoginFlow? && ops[c].token == k;
    if k != "" {
      GoneFromMemoryStaysGone(ops, sweeps, i + 1, j, k);
    }
  }

  /** The clock must not go back: a flow judged expired is gone from memory but not from the
      database, where an earlier reading of the clock still finds it. */
  lemma BackwardsClockTellsThemApart(pg: Client, flow: Flow)
    requires CanonicalHex(flow.bindingHash)
    ensures var ops := [CreateLoginFlow("s", flow, 0), ConsumeLoginFlow("s", LOGIN_FLOW_LIFETIME_MS),
                        ConsumeLoginFlow("s", 0)];
            && MemoryAnswer(ops, NoSweeps(3), 2) == Consumed(None)
            && DatabaseAnswer(pg, ops, NoSweeps(3), 2) == Consumed(Some(flow))
  {
    var ops := [CreateLoginFlow("s", flow, 0), ConsumeLoginFlow("s", LOGIN_FLOW_LIFETIME_MS), ConsumeLoginFlow("s", 0)];
    var none := NoSweeps(3);
    HexReadsBackIff(flow.bindingHash);
    assert "s" !in MemoryAfter(ops, none, 2).flows;
    assert "s" in DatabaseAfter(pg, ops, none, 1).flows;
    assert DatabaseAfter(pg, ops, none, 2) == DatabaseAfter(pg, ops, none, 1);
  }
}

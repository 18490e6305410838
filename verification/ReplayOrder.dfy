/** The replay order of `toDshEvents` (apps/agent-host/src/session-persistence.ts).

    `Scan` is the code's single pass with its queue and its flag.  `Anchor` and `Before` say,
    without either, where each row belongs; the replay order is proved to hold exactly the
    kept rows, sorted by `Before`. */
module ReplayOrder {
  import opened Wrappers

  /** Stored event types; `Other` is any type the replay gives no special treatment. */
  datatype EventType =
    | UserMessageRow | ApprovalRow | CancelRow           // written by the control plane
    | TurnStart | StepStart
    | ApprovalAsked | ApprovalDecided
    | AssistantMessage | AssistantChunk | ToolCall | ToolResult
    | Other(name: string)

  /** One element of a stored citation list; anything but an integer is `NotInteger`. */
  datatype Citation = To(target: int) | NotInteger

  datatype Sources = NotAnArray | Cites(citations: seq<Citation>)

  datatype SurfaceOp = Marker(name: string) | Operation(isReplace: bool, payload: string) | Malformed

  /** `content` is the data's `content` member when that is a string. */
  datatype Data = Data(content: Option<string>, payload: string)

  datatype StoredEvent = StoredEvent(
    number: nat, eventType: EventType, time: int, data: Data,
    sources: Option<Sources>, surfaceOp: Option<SurfaceOp>)

  /** A replayed row, by its place among the stored rows. */
  datatype Item = Verbatim(at: nat) | User(at: nat)

  type Rows = seq<StoredEvent>

  predicate IsUser(rows: Rows, i: nat) {
    i < |rows| && rows[i].eventType.UserMessageRow?
  }

  /** Rows that never entered the DSH log. */
  predicate IsDropped(rows: Rows, i: nat) {
    i < |rows| && (rows[i].eventType.ApprovalRow? || rows[i].eventType.CancelRow?)
  }

  predicate IsVerbatim(rows: Rows, i: nat) {
    i < |rows| && !IsUser(rows, i) && !IsDropped(rows, i)
  }

  predicate IsTurn(rows: Rows, i: nat) {
    i < |rows| && rows[i].eventType.TurnStart?
  }

  predicate IsStep(rows: Rows, i: nat) {
    i < |rows| && rows[i].eventType.StepStart?
  }

  // ---------------------------------------------------------------- the code's pass

  datatype Queue = Queue(ordered: seq<Item>, pending: seq<nat>, stepSeen: bool)

  function Users(pending: seq<nat>): seq<Item> {
    if pending == [] then [] else Users(pending[..|pending| - 1]) + [User(pending[|pending| - 1])]
  }

  function Advance(rows: Rows, q: Queue, i: nat): Queue
    requires i < |rows|
  {
    match rows[i].eventType
    case UserMessageRow => q.(pending := q.pending + [i])
    case ApprovalRow => q
    case CancelRow => q
    case TurnStart => q.(ordered := q.ordered + [Verbatim(i)], stepSeen := false)
    case StepStart =>
      var placed := q.ordered + [Verbatim(i)];
      if q.stepSeen then q.(ordered := placed) else Queue(placed + Users(q.pending), [], true)
    case _ => q.(ordered := q.ordered + [Verbatim(i)])
  }

  /** The pass over the first `n` rows. */
  function Scan(rows: Rows, n: nat): Queue
    requires n <= |rows|
  {
    if n == 0 then Queue([], [], true) else Advance(rows, Scan(rows, n - 1), n - 1)
  }

  function Ordered(rows: Rows): seq<Item> {
    Scan(rows, |rows|).ordered + Users(Scan(rows, |rows|).pending)
  }

  /** The first loop of `toDshEvents`, with its arrays and its flag. */
  method OrderRows(rows: Rows) returns (ordered: seq<Item>)
    ensures ordered == Ordered(rows)
  {
    ordered := [];
    var pendingReplay: seq<nat> := [];
    var stepSeenReplay := true;
    for i := 0 to |rows|
      invariant Queue(ordered, pendingReplay, stepSeenReplay) == Scan(rows, i)
    {
      if rows[i].eventType.UserMessageRow? {
        pendingReplay := pendingReplay + [i];
      } else if rows[i].eventType.ApprovalRow? || rows[i].eventType.CancelRow? {
      } else if rows[i].eventType.TurnStart? {
        ordered := ordered + [Verbatim(i)];
        stepSeenReplay := false;
      } else if rows[i].eventType.StepStart? {
        ordered := ordered + [Verbatim(i)];
        if !stepSeenReplay {
          ordered := PushUsers(ordered, pendingReplay);
          pendingReplay := [];
          stepSeenReplay := true;
        }
      } else {
        ordered := ordered + [Verbatim(i)];
      }
    }
    ordered := PushUsers(ordered, pendingReplay);
  }

  /** `for (const queued of pendingReplay.splice(0)) ordered.push(...)`. */
  method PushUsers(ordered: seq<Item>, pending: seq<nat>) returns (after: seq<Item>)
    ensures after == ordered + Users(pending)
  {
    after := ordered;
    for k := 0 to |pending|
      invariant after == ordered + Users(pending[..k])
    {
      assert pending[..k + 1][..k] == pending[..k];
      after := after + [User(pending[k])];
    }
    assert pending[..|pending|] == pending;
  }

  // ---------------------------------------------------------------- where each row belongs

  /** A turn has started before `n` and no step has since. */
  ghost predicate AwaitsStep(rows: Rows, n: nat) {
    exists t: nat :: t < n && IsTurn(rows, t) && forall s: nat :: t < s < n ==> !IsStep(rows, s)
  }

  /** A step that is the first of its turn: the one that consumes what is queued. */
  ghost predicate Opens(rows: Rows, j: nat) {
    IsStep(rows, j) && AwaitsStep(rows, j)
  }

  /** The first opening step at or after `from`, or `|rows|` when there is none. */
  ghost function NextOpening(rows: Rows, from: nat): (j: nat)
    ensures j <= |rows|
    ensures j < |rows| ==> from <= j && Opens(rows, j)
    ensures forall k: nat :: from <= k < j ==> !Opens(rows, k)
    decreases |rows| - from
  {
    if from >= |rows| then |rows|
    else if Opens(rows, from) then from
    else NextOpening(rows, from + 1)
  }

  /** The row an item is placed with: itself, or the step that consumes the message. */
  ghost function Anchor(rows: Rows, item: Item): nat {
    match item
    case Verbatim(at) => at
    case User(at) => NextOpening(rows, at + 1)
  }

  /** Placement order: by anchor; at a step, the step itself and then its messages in stored order. */
  ghost predicate Before(rows: Rows, a: Item, b: Item) {
    || Anchor(rows, a) < Anchor(rows, b)
    || (Anchor(rows, a) == Anchor(rows, b) && b.User? && (a.User? ==> a.at < b.at))
  }

  ghost predicate Sorted(rows: Rows, items: seq<Item>) {
    forall k, l :: 0 <= k < l < |items| ==> Before(rows, items[k], items[l])
  }

  /** The item a stored row becomes, if it is kept. */
  predicate IsItem(rows: Rows, item: Item) {
    match item
    case Verbatim(at) => IsVerbatim(rows, at)
    case User(at) => IsUser(rows, at)
  }

  // ---------------------------------------------------------------- the pass computes that order

  lemma {:induction false} UsersAt(pending: seq<nat>)
    ensures |Users(pending)| == |pending|
    ensures forall k :: 0 <= k < |pending| ==> Users(pending)[k] == User(pending[k])
  {
    if pending != [] {
      UsersAt(pending[..|pending| - 1]);
    }
  }

  /** Queued messages: those before `n` that no opening step before `n` has consumed, in order. */
  ghost predicate PendingInv(rows: Rows, n: nat, pending: seq<nat>) {
    && (forall k :: 0 <= k < |pending| ==>
         pending[k] < n && IsUser(rows, pending[k]) && n <= NextOpening(rows, pending[k] + 1))
    && (forall k, l :: 0 <= k < l < |pending| ==> pending[k] < pending[l])
    && (forall i: nat :: i < n && IsUser(rows, i) && n <= NextOpening(rows, i + 1) ==> i in pending)
  }

  /** Placed items: those whose row and whose anchor lie before `n`, sorted. */
  ghost predicate PlacedInv(rows: Rows, n: nat, ordered: seq<Item>) {
    && (forall k :: 0 <= k < |ordered| ==>
         IsItem(rows, ordered[k]) && ordered[k].at < n && Anchor(rows, ordered[k]) < n)
    && Sorted(rows, ordered)
    && (forall item: Item :: IsItem(rows, item) && item.at < n && Anchor(rows, item) < n ==> item in ordered)
  }

  ghost predicate ScanInv(rows: Rows, n: nat, q: Queue) {
    && (q.stepSeen <==> !AwaitsStep(rows, n))
    && PendingInv(rows, n, q.pending)
    && PlacedInv(rows, n, q.ordered)
  }

  lemma AwaitsNext(rows: Rows, n: nat)
    requires n < |rows|
    ensures IsTurn(rows, n) ==> AwaitsStep(rows, n + 1)
    ensures IsStep(rows, n) ==> !AwaitsStep(rows, n + 1)
    ensures !IsTurn(rows, n) && !IsStep(rows, n) ==> (AwaitsStep(rows, n + 1) <==> AwaitsStep(rows, n))
  {
    if AwaitsStep(rows, n + 1) {
      var t: nat :| t < n + 1 && IsTurn(rows, t) && forall s: nat :: t < s < n + 1 ==> !IsStep(rows, s);
      assert t < n ==> AwaitsStep(rows, n);
    }
    if AwaitsStep(rows, n) && !IsStep(rows, n) {
      var t: nat :| t < n && IsTurn(rows, t) && forall s: nat :: t < s < n ==> !IsStep(rows, s);
      assert forall s: nat :: t < s < n + 1 ==> !IsStep(rows, s);
    }
  }

  /** A row that opens nothing leaves older messages queued. */
  lemma QuietPending(rows: Rows, n: nat, pending: seq<nat>)
    requires n < |rows| && PendingInv(rows, n, pending) && !Opens(rows, n)
    ensures IsUser(rows, n) ==> PendingInv(rows, n + 1, pending + [n])
    ensures !IsUser(rows, n) ==> PendingInv(rows, n + 1, pending)
  {
    forall i: nat | i < n && IsUser(rows, i) && n <= NextOpening(rows, i + 1)
      ensures n + 1 <= NextOpening(rows, i + 1)
    {
      assert NextOpening(rows, i + 1) == n ==> Opens(rows, n);
    }
  }

  /** It also places nothing but itself. */
  lemma QuietPlaced(rows: Rows, n: nat, ordered: seq<Item>)
    requires n < |rows| && PlacedInv(rows, n, ordered) && !Opens(rows, n)
    ensures IsVerbatim(rows, n) ==> PlacedInv(rows, n + 1, ordered + [Verbatim(n)])
    ensures !IsVerbatim(rows, n) ==> PlacedInv(rows, n + 1, ordered)
  {
    forall item: Item | IsItem(rows, item) && item.at < n + 1 && Anchor(rows, item) < n + 1
      ensures item in ordered || item == Verbatim(n)
    {
      if item.User? {
        assert Anchor(rows, item) == n ==> Opens(rows, n);
      }
    }
  }

  lemma ConsumedHere(rows: Rows, n: nat, i: nat)
    requires n < |rows| && i < n && n <= NextOpening(rows, i + 1) && Opens(rows, n)
    ensures NextOpening(rows, i + 1) == n
  {
  }

  lemma InUsers(pending: seq<nat>, i: nat)
    requires i in pending
    ensures User(i) in Users(pending)
  {
    UsersAt(pending);
    var k :| 0 <= k < |pending| && pending[k] == i;
    assert Users(pending)[k] == User(i);
  }

  /** Messages consumed together keep their order. */
  lemma UsersSorted(rows: Rows, pending: seq<nat>, anchor: nat)
    requires forall k :: 0 <= k < |pending| ==> NextOpening(rows, pending[k] + 1) == anchor
    requires forall k, l :: 0 <= k < l < |pending| ==> pending[k] < pending[l]
    ensures Sorted(rows, Users(pending))
    ensures forall item :: item in Users(pending) ==> item.User? && item.at in pending && Anchor(rows, item) == anchor
  {
    UsersAt(pending);
  }

  lemma AppendSorted(rows: Rows, a: seq<Item>, b: seq<Item>)
    requires Sorted(rows, a) && Sorted(rows, b)
    requires forall x, y :: x in a && y in b ==> Before(rows, x, y)
    ensures Sorted(rows, a + b)
  {
    forall k, l | 0 <= k < l < |a + b| ensures Before(rows, (a + b)[k], (a + b)[l]) {
      if k < |a| <= l {
        assert a[k] in a && b[l - |a|] in b;
      }
    }
  }

  /** The step and everything it consumes, as one block. */
  lemma OpeningBlock(rows: Rows, n: nat, pending: seq<nat>)
    requires n < |rows| && Opens(rows, n) && PendingInv(rows, n, pending)
    ensures var block := [Verbatim(n)] + Users(pending);
            && Sorted(rows, block)
            && (forall item :: item in block ==>
                 IsItem(rows, item) && item.at < n + 1 && Anchor(rows, item) == n)
            && (forall item: Item :: IsItem(rows, item) && item.at < n + 1 && Anchor(rows, item) == n ==> item in block)
  {
    forall k | 0 <= k < |pending| ensures NextOpening(rows, pending[k] + 1) == n {
      ConsumedHere(rows, n, pending[k]);
    }
    UsersSorted(rows, pending, n);
    AppendSorted(rows, [Verbatim(n)], Users(pending));
    forall item: Item | IsItem(rows, item) && item.at < n + 1 && Anchor(rows, item) == n && item.User?
      ensures item in Users(pending)
    {
      InUsers(pending, item.at);
    }
  }

  lemma OpeningPlaced(rows: Rows, n: nat, ordered: seq<Item>, pending: seq<nat>)
    requires n < |rows| && Opens(rows, n)
    requires PlacedInv(rows, n, ordered) && PendingInv(rows, n, pending)
    ensures PlacedInv(rows, n + 1, ordered + [Verbatim(n)] + Users(pending))
  {
    var block := [Verbatim(n)] + Users(pending);
    OpeningBlock(rows, n, pending);
    AppendSorted(rows, ordered, block);
    assert ordered + [Verbatim(n)] + Users(pending) == ordered + block;
    PlacedBlock(rows, n, ordered, block);
  }

  lemma PlacedBlock(rows: Rows, n: nat, ordered: seq<Item>, block: seq<Item>)
    requires n < |rows| && PlacedInv(rows, n, ordered) && Sorted(rows, ordered + block)
    requires forall item :: item in block ==> IsItem(rows, item) && item.at < n + 1 && Anchor(rows, item) == n
    requires forall item: Item :: IsItem(rows, item) && item.at < n + 1 && Anchor(rows, item) == n ==> item in block
    ensures PlacedInv(rows, n + 1, ordered + block)
  {
    forall item: Item | IsItem(rows, item) && item.at < n + 1 && Anchor(rows, item) < n + 1
      ensures item in ordered + block
    {
      if Anchor(rows, item) < n {
        assert item.at < n;
      }
    }
    forall k | 0 <= k < |ordered + block|
      ensures IsItem(rows, (ordered + block)[k]) && (ordered + block)[k].at < n + 1
      ensures Anchor(rows, (ordered + block)[k]) < n + 1
    {
      if k >= |ordered| {
        assert block[k - |ordered|] in block;
      }
    }
  }

  lemma OpeningPending(rows: Rows, n: nat)
    requires n < |rows| && Opens(rows, n)
    ensures PendingInv(rows, n + 1, [])
  {
    forall i: nat | i < n + 1 && IsUser(rows, i) ensures NextOpening(rows, i + 1) < n + 1 {
      assert i != n;
    }
  }

  lemma AdvanceKeepsInv(rows: Rows, n: nat, q: Queue)
    requires n < |rows| && ScanInv(rows, n, q)
    ensures ScanInv(rows, n + 1, Advance(rows, q, n))
  {
    AwaitsNext(rows, n);
    if Opens(rows, n) {
      OpeningPlaced(rows, n, q.ordered, q.pending);
      OpeningPending(rows, n);
    } else {
      QuietPending(rows, n, q.pending);
      QuietPlaced(rows, n, q.ordered);
    }
  }

  lemma {:induction false} ScanKeepsInv(rows: Rows, n: nat)
    requires n <= |rows|
    ensures ScanInv(rows, n, Scan(rows, n))
  {
    if n > 0 {
      ScanKeepsInv(rows, n - 1);
      AdvanceKeepsInv(rows, n - 1, Scan(rows, n - 1));
    }
  }

  /** The messages no step consumes. */
  lemma TailBlock(rows: Rows, pending: seq<nat>)
    requires PendingInv(rows, |rows|, pending)
    ensures Sorted(rows, Users(pending))
    ensures forall item: Item :: item in Users(pending) <==> IsItem(rows, item) && Anchor(rows, item) == |rows|
  {
    UsersSorted(rows, pending, |rows|);
    forall item: Item | item in Users(pending) ensures IsItem(rows, item) {
      var k :| 0 <= k < |pending| && pending[k] == item.at;
    }
    forall item: Item | IsItem(rows, item) && Anchor(rows, item) == |rows| ensures item in Users(pending) {
      InUsers(pending, item.at);
    }
  }

  /** The replay order holds exactly the kept rows, each once, sorted by where they belong. */
  lemma OrderedIsSorted(rows: Rows)
    ensures forall item: Item :: item in Ordered(rows) <==> IsItem(rows, item)
    ensures Sorted(rows, Ordered(rows))
  {
    var q := Scan(rows, |rows|);
    ScanKeepsInv(rows, |rows|);
    TailBlock(rows, q.pending);
    AppendSorted(rows, q.ordered, Users(q.pending));
    forall item: Item ensures item in Ordered(rows) <==> IsItem(rows, item) {
      assert item in Ordered(rows) <==> item in q.ordered || item in Users(q.pending);
    }
  }

  // ---------------------------------------------------------------- what the order promises

  lemma LaterMessagesAnchorLater(rows: Rows, i: nat, j: nat)
    requires i <= j
    ensures NextOpening(rows, i) <= NextOpening(rows, j)
  {
    var b := NextOpening(rows, j);
    assert b < |rows| ==> Opens(rows, b);
  }

  /** Verbatim rows keep their order, messages keep theirs and only move later, nothing repeats. */
  lemma FaithfulReordering(rows: Rows, k: nat, l: nat)
    requires k < l < |Ordered(rows)|
    ensures var a, b := Ordered(rows)[k], Ordered(rows)[l];
            && a != b
            && (a.Verbatim? == b.Verbatim? ==> a.at < b.at)
            && (a.User? && b.Verbatim? ==> a.at < b.at)
  {
    OrderedIsSorted(rows);
    var a, b := Ordered(rows)[k], Ordered(rows)[l];
    assert a in Ordered(rows) && Before(rows, a, b);
    if a.User? && b.User? && b.at <= a.at {
      LaterMessagesAnchorLater(rows, b.at + 1, a.at + 1);
    }
  }

  /** A message stands right after the earliest later opening step, with only the messages that
      step also consumes in between; with no such step it stands in a tail of messages. */
  lemma MessageFollowsItsStep(rows: Rows, k: nat)
    requires k < |Ordered(rows)| && Ordered(rows)[k].User?
    ensures var j := NextOpening(rows, Ordered(rows)[k].at + 1);
            if j < |rows| then
              exists s: nat :: s < k && Ordered(rows)[s] == Verbatim(j)
                && forall m :: s < m <= k ==> Ordered(rows)[m].User? && Anchor(rows, Ordered(rows)[m]) == j
            else forall m :: k <= m < |Ordered(rows)| ==> Ordered(rows)[m].User?
  {
    OrderedIsSorted(rows);
    var ordered := Ordered(rows);
    var j := NextOpening(rows, ordered[k].at + 1);
    if j < |rows| {
      assert Verbatim(j) in ordered;
      var s :| 0 <= s < |ordered| && ordered[s] == Verbatim(j);
      forall m | s < m <= k ensures ordered[m].User? && Anchor(rows, ordered[m]) == j {
        assert Before(rows, ordered[s], ordered[m]);
        assert m < k ==> Before(rows, ordered[m], ordered[k]);
      }
    } else {
      forall m | k <= m < |ordered| ensures ordered[m].User? {
        assert k < m ==> Before(rows, ordered[k], ordered[m]);
        assert ordered[m] in ordered;
      }
    }
  }
}

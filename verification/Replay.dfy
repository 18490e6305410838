/** `toDshEvents` (apps/agent-host/src/session-persistence.ts) after the ordering: citations are
    resolved by rank, rows are converted, and the first row that cannot be fails the whole load. */
module Replay {
  import opened Wrappers
  import opened ReplayOrder

  datatype ReplayError =
    | Gap(expected: nat, found: nat)
    | CorruptSources(number: nat) | CorruptCitation(number: nat) | NonAscending(number: nat)
    | Dangling(number: nat) | NonChunk(number: nat) | NotItsCall(number: nat) | UnsupportedCiter(number: nat)
    | CorruptUserMessage(number: nat) | ReplaceOp(number: nat) | CorruptSurfaceOp(number: nat)

  datatype DshEvent =
    | UserText(number: nat, time: int, resumedFrom: nat, text: string)
    | Copy(number: nat, eventType: EventType, time: int, data: Data,
           sources: Option<seq<nat>>, surfaceOp: Option<SurfaceOp>)

  // ---------------------------------------------------------------- rank

  /** The `k` nearest positions below `below` that are `ok`, ascending; fewer when there are fewer. */
  function Nearest(ok: nat -> bool, below: nat, k: nat): (r: seq<nat>)
    ensures |r| <= k
    ensures forall m :: 0 <= m < |r| ==> r[m] < below && ok(r[m])
  {
    if below == 0 || k == 0 then []
    else if ok(below - 1) then Nearest(ok, below - 1, k - 1) + [below - 1]
    else Nearest(ok, below - 1, k)
  }

  lemma {:induction false} NearestAscends(ok: nat -> bool, below: nat, k: nat, i: nat, j: nat)
    requires i < j < |Nearest(ok, below, k)|
    ensures Nearest(ok, below, k)[i] < Nearest(ok, below, k)[j]
    decreases below
  {
    if ok(below - 1) {
      if j < |Nearest(ok, below - 1, k - 1)| {
        NearestAscends(ok, below - 1, k - 1, i, j);
      }
    } else {
      NearestAscends(ok, below - 1, k, i, j);
    }
  }

  /** No `ok` position is passed over: not one after the first that is taken, and none if there are fewer than `k`. */
  lemma {:induction false} NearestSkipsNone(ok: nat -> bool, below: nat, k: nat, p: nat)
    requires p < below && ok(p)
    requires var r := Nearest(ok, below, k); |r| < k || (r != [] && r[0] <= p)
    ensures p in Nearest(ok, below, k)
    decreases below
  {
    var r := Nearest(ok, below, k);
    if p == below - 1 {
      assert r[|r| - 1] == p;
    } else if ok(below - 1) {
      var front := Nearest(ok, below - 1, k - 1);
      assert r == front + [below - 1];
      NearestSkipsNone(ok, below - 1, k - 1, p);
      assert p in front;
    } else {
      NearestSkipsNone(ok, below - 1, k, p);
    }
  }

  predicate IsAudit(t: EventType) {
    t.ApprovalAsked? || t.ApprovalDecided?
  }

  /** A row that a citation can count: verbatim and not an approval audit. */
  predicate CitableRow(rows: Rows, i: nat) {
    IsVerbatim(rows, i) && !IsAudit(rows[i].eventType)
  }

  /** Which rows that is, by type. */
  lemma CitableRowIs(rows: Rows, i: nat)
    ensures CitableRow(rows, i) <==>
              i < |rows| && rows[i].eventType !in
                {UserMessageRow, ApprovalRow, CancelRow, ApprovalAsked, ApprovalDecided}
  {
  }

  function CitableRows(rows: Rows): nat -> bool {
    (i: nat) => CitableRow(rows, i)
  }

  predicate CitableItem(rows: Rows, ordered: seq<Item>, p: nat) {
    p < |ordered| && ordered[p].Verbatim? && CitableRow(rows, ordered[p].at)
  }

  function CitableItems(rows: Rows, ordered: seq<Item>): nat -> bool {
    (p: nat) => CitableItem(rows, ordered, p)
  }

  // ---------------------------------------------------------------- citations

  predicate AllIntegers(citations: seq<Citation>) {
    forall i :: 0 <= i < |citations| ==> citations[i].To?
  }

  predicate Ascending(citations: seq<Citation>) {
    forall i :: 0 < i < |citations| ==>
      (citations[i - 1].To? && citations[i].To? ==> citations[i - 1].target < citations[i].target)
  }

  /** The checks on a stored citation list that look at nothing else. */
  function CheckShape(number: nat, sources: Sources): Option<ReplayError> {
    if sources.NotAnArray? || sources.citations == [] then Some(CorruptSources(number))
    else if !AllIntegers(sources.citations) then Some(CorruptCitation(number))
    else if !Ascending(sources.citations) then Some(NonAscending(number))
    else None
  }

  /** Each target is below every later one. */
  ghost predicate StrictlyAscending(citations: seq<Citation>) {
    forall i, j :: 0 <= i < j < |citations| && citations[i].To? && citations[j].To? ==>
      citations[i].target < citations[j].target
  }

  lemma {:induction false} AscendingPairs(citations: seq<Citation>, j: nat)
    requires AllIntegers(citations) && Ascending(citations) && j < |citations|
    ensures forall i :: 0 <= i < j ==> citations[i].target < citations[j].target
  {
    if j > 0 {
      AscendingPairs(citations, j - 1);
      assert citations[j - 1].target < citations[j].target;
    }
  }

  /** A list is refused as no list or an empty one, as holding no integer, or as not strictly ascending, in
      that order, and otherwise passes. */
  lemma CheckShapeIs(number: nat, sources: Sources)
    ensures var refused := CheckShape(number, sources);
            if sources.NotAnArray? || |sources.citations| == 0 then refused == Some(CorruptSources(number))
            else if exists i :: 0 <= i < |sources.citations| && sources.citations[i].NotInteger? then
              refused == Some(CorruptCitation(number))
            else if !StrictlyAscending(sources.citations) then refused == Some(NonAscending(number))
            else refused.None?
  {
    if sources.Cites? && sources.citations != [] && AllIntegers(sources.citations) {
      var c := sources.citations;
      if Ascending(c) {
        forall i, j | 0 <= i < j < |c| ensures c[i].target < c[j].target {
          AscendingPairs(c, j);
        }
      }
    }
  }

  ghost predicate Replayable(rows: Rows, ordered: seq<Item>) {
    forall p :: 0 <= p < |ordered| ==> IsItem(rows, ordered[p])
  }

  predicate IsCiter(rows: Rows, ordered: seq<Item>, number: nat, p: nat)
    requires Replayable(rows, ordered)
  {
    p < |ordered| && ordered[p].Verbatim? && rows[ordered[p].at].number == number
  }

  /** `ordered.findIndex(...)` from position `from`; with no such row the walk finds nothing, as from 0. */
  function FindCiter(rows: Rows, ordered: seq<Item>, number: nat, from: nat): (p: nat)
    requires Replayable(rows, ordered)
    ensures p == 0 || (from <= p && IsCiter(rows, ordered, number, p))
    ensures forall q: nat :: from <= q && IsCiter(rows, ordered, number, q) ==>
              p <= q && IsCiter(rows, ordered, number, p)
    decreases |ordered| - from
  {
    if from >= |ordered| then 0
    else if IsCiter(rows, ordered, number, from) then from
    else FindCiter(rows, ordered, number, from + 1)
  }

  /** The type of the row at a position of the replay order. */
  function TypeAt(rows: Rows, ordered: seq<Item>, p: nat): EventType
    requires Replayable(rows, ordered) && p < |ordered|
  {
    rows[ordered[p].at].eventType
  }

  /** Which rows a citer may cite: a message its chunks, a result its one call, nothing else anything. */
  ghost predicate KindsFit(citer: EventType, targets: seq<EventType>) {
    match citer
    case AssistantMessage => forall m :: 0 <= m < |targets| ==> targets[m].AssistantChunk?
    case ToolResult => |targets| == 1 && targets[0].ToolCall?
    case _ => false
  }

  function CheckKinds(rows: Rows, ordered: seq<Item>, citer: EventType, number: nat, positions: seq<nat>)
    : Option<ReplayError>
    requires Replayable(rows, ordered) && forall m :: 0 <= m < |positions| ==> positions[m] < |ordered|
  {
    match citer
    case AssistantMessage =>
      if forall m :: 0 <= m < |positions| ==> TypeAt(rows, ordered, positions[m]).AssistantChunk?
      then None else Some(NonChunk(number))
    case ToolResult =>
      if |positions| == 1 && TypeAt(rows, ordered, positions[0]).ToolCall? then None else Some(NotItsCall(number))
    case _ => Some(UnsupportedCiter(number))
  }

  /** `remapCitations`. */
  function Remap(rows: Rows, ordered: seq<Item>, row: StoredEvent, sources: Sources): Result<seq<nat>, ReplayError>
    requires Replayable(rows, ordered)
  {
    var shape := CheckShape(row.number, sources);
    if shape.Some? then Err(shape.value)
    else
      var count := |sources.citations|;
      var positions := Nearest(CitableItems(rows, ordered), FindCiter(rows, ordered, row.number, 0), count);
      if |positions| < count then Err(Dangling(row.number))
      else
        var kinds := CheckKinds(rows, ordered, row.eventType, row.number, positions);
        if kinds.Some? then Err(kinds.value) else Ok(positions)
  }

  /** `remapSurfaceOp`: nothing is rewritten, but a replace or a malformed operation is refused. */
  function CheckSurfaceOp(number: nat, op: SurfaceOp): Option<ReplayError> {
    match op
    case Marker(_) => None
    case Operation(isReplace, _) => if isReplace then Some(ReplaceOp(number)) else None
    case Malformed => Some(CorruptSurfaceOp(number))
  }

  lemma CheckSurfaceOpIs(number: nat, op: SurfaceOp)
    ensures CheckSurfaceOp(number, op) == if op.Malformed? then Some(CorruptSurfaceOp(number))
                                          else if op.Operation? && op.isReplace then Some(ReplaceOp(number))
                                          else None
  {
  }

  // ---------------------------------------------------------------- conversion

  function ConvertUser(row: StoredEvent, k: nat): Result<DshEvent, ReplayError> {
    if row.data.content.None? then Err(CorruptUserMessage(row.number))
    else Ok(UserText(k, row.time, row.number, row.data.content.value))
  }

  function ConvertSources(rows: Rows, ordered: seq<Item>, row: StoredEvent): Result<Option<seq<nat>>, ReplayError>
    requires Replayable(rows, ordered)
  {
    if row.sources.None? then Ok(None)
    else
      var positions := Remap(rows, ordered, row, row.sources.value);
      if positions.Err? then Err(positions.error) else Ok(Some(positions.value))
  }

  function ConvertVerbatim(rows: Rows, ordered: seq<Item>, row: StoredEvent, k: nat): Result<DshEvent, ReplayError>
    requires Replayable(rows, ordered)
  {
    var sources := ConvertSources(rows, ordered, row);
    if sources.Err? then Err(sources.error)
    else
      var op := if row.surfaceOp.None? then None else CheckSurfaceOp(row.number, row.surfaceOp.value);
      if op.Some? then Err(op.value)
      else Ok(Copy(k, row.eventType, row.time, row.data, sources.value, row.surfaceOp))
  }

  /** One element of the replayed log. */
  function Convert(rows: Rows, ordered: seq<Item>, k: nat): Result<DshEvent, ReplayError>
    requires Replayable(rows, ordered) && k < |ordered|
  {
    if ordered[k].User? then ConvertUser(rows[ordered[k].at], k)
    else ConvertVerbatim(rows, ordered, rows[ordered[k].at], k)
  }

  function ConvertFirst(rows: Rows, ordered: seq<Item>, n: nat): (r: Result<seq<DshEvent>, ReplayError>)
    requires Replayable(rows, ordered) && n <= |ordered|
    ensures r.Ok? <==> forall k: nat :: k < n ==> Convert(rows, ordered, k).Ok?
    ensures r.Ok? ==> |r.value| == n && forall k: nat :: k < n ==> Convert(rows, ordered, k) == Ok(r.value[k])
  {
    if n == 0 then Ok([])
    else
      var before := ConvertFirst(rows, ordered, n - 1);
      if before.Err? then before
      else
        var event := Convert(rows, ordered, n - 1);
        if event.Err? then Err(event.error) else Ok(before.value + [event.value])
  }

  lemma OrderedIsReplayable(rows: Rows)
    ensures Replayable(rows, Ordered(rows))
  {
    OrderedIsSorted(rows);
    assert forall p :: 0 <= p < |Ordered(rows)| ==> Ordered(rows)[p] in Ordered(rows);
  }

  function ToDshEvents(rows: Rows): Result<seq<DshEvent>, ReplayError> {
    OrderedIsReplayable(rows);
    ConvertFirst(rows, Ordered(rows), |Ordered(rows)|)
  }

  ghost predicate Contiguous(rows: Rows) {
    forall i :: 0 <= i < |rows| ==> rows[i].number == i
  }

  // ---------------------------------------------------------------- the same as loops

  /** The walk of `remapCitations`: backwards from the citer, unshifting what it finds. */
  method WalkBack(rows: Rows, ordered: seq<Item>, citer: nat, count: nat) returns (predecessors: seq<nat>)
    requires Replayable(rows, ordered) && citer <= |ordered|
    ensures predecessors == Nearest(CitableItems(rows, ordered), citer, count)
  {
    ghost var ok := CitableItems(rows, ordered);
    predecessors := [];
    var i: nat := citer;
    while i > 0 && |predecessors| < count
      invariant i <= citer && |predecessors| <= count
      invariant Nearest(ok, i, count - |predecessors|) + predecessors == Nearest(ok, citer, count)
    {
      i := i - 1;
      UnshiftKeepsNearest(ok, i, count - |predecessors|, predecessors);
      assert ok(i) == CitableItem(rows, ordered, i);
      if ordered[i].Verbatim? && !IsAudit(rows[ordered[i].at].eventType) {
        predecessors := [i] + predecessors;
      }
    }
    assert Nearest(ok, i, count - |predecessors|) == [];
  }

  lemma UnshiftKeepsNearest(ok: nat -> bool, i: nat, k: nat, found: seq<nat>)
    requires k > 0
    ensures Nearest(ok, i + 1, k) + found
         == if ok(i) then Nearest(ok, i, k - 1) + ([i] + found) else Nearest(ok, i, k) + found
  {
  }

  method RemapCitations(rows: Rows, ordered: seq<Item>, row: StoredEvent, sources: Sources)
    returns (r: Result<seq<nat>, ReplayError>)
    requires Replayable(rows, ordered)
    ensures r == Remap(rows, ordered, row, sources)
  {
    if sources.NotAnArray? || sources.citations == [] {
      return Err(CorruptSources(row.number));
    }
    var citations := sources.citations;
    for i := 0 to |citations|
      invariant forall j :: 0 <= j < i ==> citations[j].To?
    {
      if !citations[i].To? {
        return Err(CorruptCitation(row.number));
      }
    }
    for i := 1 to |citations|
      invariant forall j :: 0 < j < i ==> citations[j - 1].target < citations[j].target
    {
      if citations[i - 1].target >= citations[i].target {
        return Err(NonAscending(row.number));
      }
    }
    var predecessors := WalkBack(rows, ordered, FindCiter(rows, ordered, row.number, 0), |citations|);
    if |predecessors| < |citations| {
      return Err(Dangling(row.number));
    }
    var kinds := CheckKinds(rows, ordered, row.eventType, row.number, predecessors);
    r := if kinds.Some? then Err(kinds.value) else Ok(predecessors);
  }

  method ConvertRow(rows: Rows, ordered: seq<Item>, k: nat) returns (r: Result<DshEvent, ReplayError>)
    requires Replayable(rows, ordered) && k < |ordered|
    ensures r == Convert(rows, ordered, k)
  {
    var row := rows[ordered[k].at];
    if ordered[k].User? {
      return ConvertUser(row, k);
    }
    var sources: Option<seq<nat>> := None;
    if row.sources.Some? {
      var positions := RemapCitations(rows, ordered, row, row.sources.value);
      if positions.Err? {
        return Err(positions.error);
      }
      sources := Some(positions.value);
    }
    if row.surfaceOp.Some? {
      var refused := CheckSurfaceOp(row.number, row.surfaceOp.value);
      if refused.Some? {
        return Err(refused.value);
      }
    }
    r := Ok(Copy(k, row.eventType, row.time, row.data, sources, row.surfaceOp));
  }

  /** `assertContiguous` and then `toDshEvents`, as a resume runs them. */
  method Load(rows: Rows) returns (r: Result<seq<DshEvent>, ReplayError>)
    ensures Contiguous(rows) ==> r == ToDshEvents(rows)
    ensures !Contiguous(rows) ==>
      exists i: nat :: i < |rows| && Contiguous(rows[..i]) && rows[i].number != i && r == Err(Gap(i, rows[i].number))
  {
    for i := 0 to |rows|
      invariant Contiguous(rows[..i])
    {
      if rows[i].number != i {
        return Err(Gap(i, rows[i].number));
      }
    }
    assert rows[..|rows|] == rows;
    var ordered := OrderRows(rows);
    OrderedIsReplayable(rows);
    var events: seq<DshEvent> := [];
    for k := 0 to |ordered|
      invariant ConvertFirst(rows, ordered, k) == Ok(events)
    {
      var event := ConvertRow(rows, ordered, k);
      if event.Err? {
        FirstFailureWins(rows, ordered, k, |ordered|);
        return Err(event.error);
      }
      events := events + [event.value];
    }
    r := Ok(events);
  }

  lemma {:induction false} FirstFailureWins(rows: Rows, ordered: seq<Item>, k: nat, n: nat)
    requires Replayable(rows, ordered) && k < n <= |ordered|
    requires ConvertFirst(rows, ordered, k).Ok? && Convert(rows, ordered, k).Err?
    ensures ConvertFirst(rows, ordered, n) == Err(Convert(rows, ordered, k).error)
  {
    if k + 1 < n {
      FirstFailureWins(rows, ordered, k, n - 1);
    }
  }
}

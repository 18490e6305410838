/** What a replayed session log (apps/agent-host/src/session-persistence.ts) means.

    Citations are rewritten by rank: the stored numbers are used only for their count.  The
    theorems say which row a replayed citation denotes, when a stored log replays at all, that a
    replay keeps the citations of the live log it was persisted from, and that replays grow. */
module ReplayMeaning {
  import opened Wrappers
  import opened ReplayOrder
  import opened Replay

  // ---------------------------------------------------------------- rank is invariant

  /** `f` carries the `from` positions below `n` onto the `to` positions below `m`, in order. */
  ghost predicate Matches(from: nat -> bool, n: nat, to: nat -> bool, m: nat, f: nat -> nat) {
    && (forall p: nat {:trigger from(p)} :: p < n && from(p) ==> f(p) < m && to(f(p)))
    && (forall p: nat, q: nat {:trigger from(p), from(q)} :: p < q < n && from(p) && from(q) ==> f(p) < f(q))
    && (forall q: nat {:trigger to(q)} :: q < m && to(q) ==>
          exists p: nat {:trigger from(p)} :: p < n && from(p) && f(p) == q)
  }

  lemma SkipFrom(from: nat -> bool, n: nat, to: nat -> bool, m: nat, f: nat -> nat)
    requires Matches(from, n + 1, to, m, f) && !from(n)
    ensures Matches(from, n, to, m, f)
  {
    forall q: nat | q < m && to(q) ensures exists p: nat :: p < n && from(p) && f(p) == q {
      var p: nat :| p < n + 1 && from(p) && f(p) == q;
      assert p != n;
    }
  }

  lemma SkipTo(from: nat -> bool, n: nat, to: nat -> bool, m: nat, f: nat -> nat)
    requires Matches(from, n, to, m + 1, f) && !to(m)
    ensures Matches(from, n, to, m, f)
  {
    forall p: nat | p < n && from(p) ensures f(p) < m {
      assert to(f(p));
    }
  }

  lemma LastMatchesLast(from: nat -> bool, n: nat, to: nat -> bool, m: nat, f: nat -> nat)
    requires Matches(from, n + 1, to, m + 1, f) && from(n) && to(m)
    ensures f(n) == m
    ensures Matches(from, n, to, m, f)
  {
    forall p: nat | p < n + 1 && from(p) ensures f(p) <= f(n) {
    }
    assert exists p: nat :: p < n + 1 && from(p) && f(p) == m;
    forall q: nat | q < m && to(q) ensures exists p: nat :: p < n && from(p) && f(p) == q {
      var p: nat :| p < n + 1 && from(p) && f(p) == q;
      assert p != n;
    }
  }

  /** `b` is the image of `a`. */
  ghost predicate IsImage(f: nat -> nat, a: seq<nat>, b: seq<nat>) {
    |a| == |b| && forall i :: 0 <= i < |a| ==> f(a[i]) == b[i]
  }

  lemma EndTogether(from: nat -> bool, n: nat, to: nat -> bool, m: nat, f: nat -> nat)
    requires Matches(from, n, to, m, f)
    requires (n > 0 ==> from(n - 1)) && (m > 0 ==> to(m - 1))
    ensures n == 0 <==> m == 0
  {
    if m > 0 {
      var p: nat :| p < n && from(p) && f(p) == m - 1;
    }
  }

  /** The same, position by position from the top. */
  ghost predicate Paired(from: nat -> bool, n: nat, to: nat -> bool, m: nat, f: nat -> nat)
    decreases n + m
  {
    if n > 0 && !from(n - 1) then Paired(from, n - 1, to, m, f)
    else if m > 0 && !to(m - 1) then Paired(from, n, to, m - 1, f)
    else if n > 0 && m > 0 then f(n - 1) == m - 1 && Paired(from, n - 1, to, m - 1, f)
    else n == m
  }

  /** With both tops counted, or nothing left on one side. */
  lemma TopsMatch(from: nat -> bool, n: nat, to: nat -> bool, m: nat, f: nat -> nat)
    requires Matches(from, n, to, m, f)
    requires (n > 0 ==> from(n - 1)) && (m > 0 ==> to(m - 1))
    ensures n == 0 <==> m == 0
    ensures n > 0 ==> f(n - 1) == m - 1 && Matches(from, n - 1, to, m - 1, f)
  {
    EndTogether(from, n, to, m, f);
    if n > 0 {
      LastMatchesLast(from, n - 1, to, m - 1, f);
    }
  }

  lemma PairedAtTop(from: nat -> bool, n: nat, to: nat -> bool, m: nat, f: nat -> nat)
    requires n > 0 && m > 0 && from(n - 1) && to(m - 1) && f(n - 1) == m - 1 && Paired(from, n - 1, to, m - 1, f)
    ensures Paired(from, n, to, m, f)
  {
  }

  lemma {:induction false} MatchesArePaired(from: nat -> bool, n: nat, to: nat -> bool, m: nat, f: nat -> nat)
    requires Matches(from, n, to, m, f)
    ensures Paired(from, n, to, m, f)
    decreases n + m
  {
    if n > 0 && !from(n - 1) {
      SkipFrom(from, n - 1, to, m, f);
      MatchesArePaired(from, n - 1, to, m, f);
    } else if m > 0 && !to(m - 1) {
      SkipTo(from, n, to, m - 1, f);
      MatchesArePaired(from, n, to, m - 1, f);
    } else {
      TopsMatch(from, n, to, m, f);
      if n > 0 {
        MatchesArePaired(from, n - 1, to, m - 1, f);
        PairedAtTop(from, n, to, m, f);
      }
    }
  }

  lemma {:induction false} NearestOfPaired(from: nat -> bool, n: nat, to: nat -> bool, m: nat, f: nat -> nat, k: nat)
    requires Paired(from, n, to, m, f)
    ensures IsImage(f, Nearest(from, n, k), Nearest(to, m, k))
    decreases n + m
  {
    if k > 0 {
      if n > 0 && !from(n - 1) {
        NearestOfPaired(from, n - 1, to, m, f, k);
      } else if m > 0 && !to(m - 1) {
        NearestOfPaired(from, n, to, m - 1, f, k);
      } else if n > 0 && m > 0 {
        NearestOfPaired(from, n - 1, to, m - 1, f, k - 1);
      }
    }
  }

  /** The image of the nearest positions is the nearest positions of the image. */
  lemma NearestMatches(from: nat -> bool, n: nat, to: nat -> bool, m: nat, f: nat -> nat, k: nat)
    requires Matches(from, n, to, m, f)
    ensures IsImage(f, Nearest(from, n, k), Nearest(to, m, k))
  {
    MatchesArePaired(from, n, to, m, f);
    NearestOfPaired(from, n, to, m, f, k);
  }

  /** Only what lies below counts. */
  lemma {:induction false} NearestAgrees(a: nat -> bool, b: nat -> bool, n: nat, k: nat)
    requires forall p: nat :: p < n ==> a(p) == b(p)
    ensures Nearest(a, n, k) == Nearest(b, n, k)
    decreases n
  {
    if n > 0 && k > 0 {
      NearestAgrees(a, b, n - 1, if a(n - 1) then k - 1 else k);
    }
  }

  // ---------------------------------------------------------------- citations denote rows by rank

  /** The row at a position of the replay order. */
  function RowAt(ordered: seq<Item>): nat -> nat {
    (p: nat) => if p < |ordered| then ordered[p].at else 0
  }

  lemma VerbatimOrder(rows: Rows, p: nat, q: nat)
    requires p < |Ordered(rows)| && q < |Ordered(rows)|
    requires Ordered(rows)[p].Verbatim? && Ordered(rows)[q].Verbatim?
    ensures p < q <==> Ordered(rows)[p].at < Ordered(rows)[q].at
  {
    if p < q { FaithfulReordering(rows, p, q); }
    if q < p { FaithfulReordering(rows, q, p); }
  }

  lemma ItemsMatchRows(rows: Rows, k: nat)
    requires k < |Ordered(rows)| && Ordered(rows)[k].Verbatim?
    ensures Matches(CitableItems(rows, Ordered(rows)), k, CitableRows(rows), Ordered(rows)[k].at, RowAt(Ordered(rows)))
  {
    OrderedIsSorted(rows);
    var ordered := Ordered(rows);
    var f, items, i := RowAt(ordered), CitableItems(rows, ordered), ordered[k].at;
    forall p: nat, q: nat | p < q <= k && ordered[p].Verbatim? && ordered[q].Verbatim? ensures f(p) < f(q) {
      VerbatimOrder(rows, p, q);
    }
    forall j: nat | j < i && CitableRow(rows, j) ensures exists p: nat :: p < k && items(p) && f(p) == j {
      assert Verbatim(j) in ordered;
      var p :| 0 <= p < |ordered| && ordered[p] == Verbatim(j);
      VerbatimOrder(rows, p, k);
      assert items(p);
    }
  }

  /** In a contiguous log `findIndex` finds the citer itself. */
  lemma FindsItself(rows: Rows, k: nat)
    requires Contiguous(rows) && Replayable(rows, Ordered(rows))
    requires k < |Ordered(rows)| && Ordered(rows)[k].Verbatim?
    ensures FindCiter(rows, Ordered(rows), rows[Ordered(rows)[k].at].number, 0) == k
  {
    var ordered, number := Ordered(rows), rows[Ordered(rows)[k].at].number;
    var p := FindCiter(rows, ordered, number, 0);
    assert IsCiter(rows, ordered, number, k);
    VerbatimOrder(rows, p, k);
    VerbatimOrder(rows, k, p);
  }

  /** The rows that the citations of row `i` denote: the nearest citable rows before it, as many as it cites. */
  function CitedRows(rows: Rows, i: nat): seq<nat>
    requires i < |rows| && rows[i].sources.Some? && rows[i].sources.value.Cites?
  {
    Nearest(CitableRows(rows), i, |rows[i].sources.value.citations|)
  }

  function Types(rows: Rows, targets: seq<nat>): (types: seq<EventType>)
    requires forall m :: 0 <= m < |targets| ==> targets[m] < |rows|
    ensures |types| == |targets| && forall m :: 0 <= m < |targets| ==> types[m] == rows[targets[m]].eventType
  {
    if targets == [] then []
    else Types(rows, targets[..|targets| - 1]) + [rows[targets[|targets| - 1]].eventType]
  }

  /** A non-empty list of integers, each below every later one. */
  ghost predicate WellShaped(sources: Sources) {
    && sources.Cites? && |sources.citations| > 0
    && (forall m :: 0 <= m < |sources.citations| ==> sources.citations[m].To?)
    && (forall m, n :: 0 <= m < n < |sources.citations| ==> sources.citations[m].target < sources.citations[n].target)
  }

  ghost predicate CitationsOk(rows: Rows, i: nat)
    requires i < |rows|
  {
    rows[i].sources.Some? ==>
      && WellShaped(rows[i].sources.value)
      && |CitedRows(rows, i)| == |rows[i].sources.value.citations|
      && KindsFit(rows[i].eventType, Types(rows, CitedRows(rows, i)))
  }

  ghost predicate IsRefusedOp(op: SurfaceOp) {
    op.Malformed? || (op.Operation? && op.isReplace)
  }

  /** What a stored row must satisfy to be replayed, in terms of the stored log alone. */
  ghost predicate RowOk(rows: Rows, i: nat)
    requires i < |rows|
  {
    if rows[i].eventType == UserMessageRow then rows[i].data.content.Some?
    else if rows[i].eventType in {ApprovalRow, CancelRow} then true
    else CitationsOk(rows, i) && (rows[i].surfaceOp.Some? ==> !IsRefusedOp(rows[i].surfaceOp.value))
  }

  lemma WellShapedPasses(number: nat, sources: Sources)
    ensures CheckShape(number, sources).None? <==> WellShaped(sources)
  {
    CheckShapeIs(number, sources);
  }

  /** Why a row that may not be replayed is refused. */
  ghost function Refusal(rows: Rows, i: nat): ReplayError
    requires i < |rows| && !RowOk(rows, i)
  {
    var number, sources := rows[i].number, rows[i].sources;
    if rows[i].eventType == UserMessageRow then CorruptUserMessage(number)
    else if CitationsOk(rows, i) then
      if rows[i].surfaceOp.value.Malformed? then CorruptSurfaceOp(number) else ReplaceOp(number)
    else if sources.value.NotAnArray? || |sources.value.citations| == 0 then CorruptSources(number)
    else if exists m :: 0 <= m < |sources.value.citations| && !sources.value.citations[m].To? then
      CorruptCitation(number)
    else if !WellShaped(sources.value) then NonAscending(number)
    else if |CitedRows(rows, i)| < |sources.value.citations| then Dangling(number)
    else
      match rows[i].eventType
      case AssistantMessage => NonChunk(number)
      case ToolResult => NotItsCall(number)
      case _ => UnsupportedCiter(number)
  }

  lemma KindsByRows(rows: Rows, ordered: seq<Item>, citer: EventType, number: nat, positions: seq<nat>,
                    targets: seq<nat>)
    requires Replayable(rows, ordered) && |positions| == |targets|
    requires forall m :: 0 <= m < |positions| ==>
              positions[m] < |ordered| && targets[m] < |rows| && ordered[positions[m]].at == targets[m]
    ensures CheckKinds(rows, ordered, citer, number, positions).None? <==> KindsFit(citer, Types(rows, targets))
  {
    forall m | 0 <= m < |positions| ensures TypeAt(rows, ordered, positions[m]) == Types(rows, targets)[m] {
    }
    if citer.AssistantMessage? && KindsFit(citer, Types(rows, targets)) {
      forall m | 0 <= m < |positions| ensures TypeAt(rows, ordered, positions[m]).AssistantChunk? {
        assert Types(rows, targets)[m].AssistantChunk?;
      }
    }
  }

  lemma PositionsByRank(rows: Rows, k: nat, count: nat)
    requires k < |Ordered(rows)| && Ordered(rows)[k].Verbatim?
    ensures var positions := Nearest(CitableItems(rows, Ordered(rows)), k, count);
            var targets := Nearest(CitableRows(rows), Ordered(rows)[k].at, count);
            && |positions| == |targets|
            && forall m :: 0 <= m < |positions| ==>
                 positions[m] < k && Ordered(rows)[positions[m]] == Verbatim(targets[m])
  {
    ItemsMatchRows(rows, k);
    NearestMatches(CitableItems(rows, Ordered(rows)), k, CitableRows(rows), Ordered(rows)[k].at,
                   RowAt(Ordered(rows)), count);
    var positions := Nearest(CitableItems(rows, Ordered(rows)), k, count);
    assert forall m :: 0 <= m < |positions| ==> CitableItem(rows, Ordered(rows), positions[m]);
  }

  /** A stored citation list is resolved exactly when the row passes the stored-log conditions, and
      then its positions are those of the nearest citable rows. */
  lemma RemapByRank(rows: Rows, k: nat)
    requires Contiguous(rows) && Replayable(rows, Ordered(rows))
    requires k < |Ordered(rows)| && Ordered(rows)[k].Verbatim? && rows[Ordered(rows)[k].at].sources.Some?
    ensures var i := Ordered(rows)[k].at;
            var r := Remap(rows, Ordered(rows), rows[i], rows[i].sources.value);
            && (r.Ok? <==> CitationsOk(rows, i))
            && (r.Err? ==> !RowOk(rows, i) && r.error == Refusal(rows, i))
            && (r.Ok? ==>
                 && |r.value| == |CitedRows(rows, i)|
                 && forall m :: 0 <= m < |r.value| ==>
                      r.value[m] < k && Ordered(rows)[r.value[m]] == Verbatim(CitedRows(rows, i)[m]))
  {
    var i := Ordered(rows)[k].at;
    if WellShaped(rows[i].sources.value) {
      WellShapedResolves(rows, k);
    } else {
      MisshapenIsRefused(rows, Ordered(rows), i);
    }
  }

  lemma MisshapenIsRefused(rows: Rows, ordered: seq<Item>, i: nat)
    requires Replayable(rows, ordered) && IsVerbatim(rows, i) && rows[i].sources.Some?
    requires !WellShaped(rows[i].sources.value)
    ensures !CitationsOk(rows, i) && !RowOk(rows, i)
    ensures Remap(rows, ordered, rows[i], rows[i].sources.value) == Err(Refusal(rows, i))
  {
    WellShapedPasses(rows[i].number, rows[i].sources.value);
    CheckShapeIs(rows[i].number, rows[i].sources.value);
  }

  lemma WellShapedResolves(rows: Rows, k: nat)
    requires Contiguous(rows) && Replayable(rows, Ordered(rows))
    requires k < |Ordered(rows)| && Ordered(rows)[k].Verbatim? && rows[Ordered(rows)[k].at].sources.Some?
    requires WellShaped(rows[Ordered(rows)[k].at].sources.value)
    ensures var i := Ordered(rows)[k].at;
            var r := Remap(rows, Ordered(rows), rows[i], rows[i].sources.value);
            && (r.Ok? <==> CitationsOk(rows, i))
            && (r.Err? ==> !RowOk(rows, i) && r.error == Refusal(rows, i))
            && (r.Ok? ==>
                 && |r.value| == |CitedRows(rows, i)|
                 && forall m :: 0 <= m < |r.value| ==>
                      r.value[m] < k && Ordered(rows)[r.value[m]] == Verbatim(CitedRows(rows, i)[m]))
  {
    var ordered, i := Ordered(rows), Ordered(rows)[k].at;
    var count := |rows[i].sources.value.citations|;
    var positions := Nearest(CitableItems(rows, ordered), k, count);
    FindsItself(rows, k);
    WellShapedPasses(rows[i].number, rows[i].sources.value);
    PositionsByRank(rows, k, count);
    KindsByRows(rows, ordered, rows[i].eventType, rows[i].number, positions, CitedRows(rows, i));
  }

  // ---------------------------------------------------------------- which logs replay, and to what

  lemma ConvertsIff(rows: Rows, k: nat)
    requires Contiguous(rows) && Replayable(rows, Ordered(rows)) && k < |Ordered(rows)|
    ensures IsItem(rows, Ordered(rows)[k])
    ensures var r, i := Convert(rows, Ordered(rows), k), Ordered(rows)[k].at;
            (r.Ok? <==> RowOk(rows, i)) && (r.Err? ==> r.error == Refusal(rows, i))
  {
    var item := Ordered(rows)[k];
    assert IsItem(rows, item);
    if item.Verbatim? && rows[item.at].sources.Some? {
      RemapByRank(rows, k);
    }
    if item.Verbatim? && rows[item.at].surfaceOp.Some? {
      CheckSurfaceOpIs(rows[item.at].number, rows[item.at].surfaceOp.value);
    }
  }

  /** A contiguous log that does not replay fails as the first item of the replay order that is refused. */
  lemma FirstRefusalIsReported(rows: Rows) returns (k: nat)
    requires Contiguous(rows) && ToDshEvents(rows).Err?
    ensures k < |Ordered(rows)| && IsItem(rows, Ordered(rows)[k]) && !RowOk(rows, Ordered(rows)[k].at)
    ensures forall j :: 0 <= j < k ==> IsItem(rows, Ordered(rows)[j]) && RowOk(rows, Ordered(rows)[j].at)
    ensures ToDshEvents(rows) == Err(Refusal(rows, Ordered(rows)[k].at))
  {
    OrderedIsReplayable(rows);
    var ordered := Ordered(rows);
    k := FirstRefused(rows, ordered, |ordered|);
    ConvertsIff(rows, k);
    forall j | 0 <= j < k ensures IsItem(rows, ordered[j]) && RowOk(rows, ordered[j].at) {
      ConvertsIff(rows, j);
    }
  }

  lemma {:induction false} FirstRefused(rows: Rows, ordered: seq<Item>, n: nat) returns (k: nat)
    requires Replayable(rows, ordered) && n <= |ordered| && ConvertFirst(rows, ordered, n).Err?
    ensures k < n && Convert(rows, ordered, k).Err? && forall j: nat :: j < k ==> Convert(rows, ordered, j).Ok?
    ensures ConvertFirst(rows, ordered, n) == Err(Convert(rows, ordered, k).error)
  {
    if ConvertFirst(rows, ordered, n - 1).Err? {
      k := FirstRefused(rows, ordered, n - 1);
    } else {
      k := n - 1;
    }
  }

  /** A contiguous log replays exactly when every kept row passes the stored-log conditions. */
  lemma ReplaysIffEveryRowOk(rows: Rows)
    requires Contiguous(rows)
    ensures ToDshEvents(rows).Ok? <==> forall i: nat :: i < |rows| ==> RowOk(rows, i)
  {
    OrderedIsSorted(rows);
    OrderedIsReplayable(rows);
    var ordered := Ordered(rows);
    if ToDshEvents(rows).Ok? {
      forall i: nat | i < |rows| ensures RowOk(rows, i) {
        if !IsDropped(rows, i) {
          var item := if IsUser(rows, i) then User(i) else Verbatim(i);
          assert item in ordered;
          var k: nat :| k < |ordered| && ordered[k] == item;
          ConvertsIff(rows, k);
        }
      }
    }
    if forall i: nat :: i < |rows| ==> RowOk(rows, i) {
      forall k: nat | k < |ordered| ensures Convert(rows, ordered, k).Ok? {
        ConvertsIff(rows, k);
      }
    }
  }

  /** The replayed log is numbered from 0 and keeps every row's type, time, data and placement. */
  lemma ReplayedRowsAreFaithful(rows: Rows, k: nat)
    requires ToDshEvents(rows).Ok? && k < |ToDshEvents(rows).value|
    ensures |ToDshEvents(rows).value| == |Ordered(rows)|
    ensures var event, item := ToDshEvents(rows).value[k], Ordered(rows)[k];
            && IsItem(rows, item)
            && event.number == k
            && event.time == rows[item.at].time
            && (item.User? ==>
                 && event.UserText? && event.resumedFrom == rows[item.at].number
                 && rows[item.at].data.content == Some(event.text))
            && (item.Verbatim? ==>
                 && event.Copy? && event.eventType == rows[item.at].eventType
                 && event.data == rows[item.at].data && event.surfaceOp == rows[item.at].surfaceOp
                 && (event.sources.Some? <==> rows[item.at].sources.Some?))
  {
    OrderedIsReplayable(rows);
    assert Convert(rows, Ordered(rows), k) == Ok(ToDshEvents(rows).value[k]);
  }

  /** Every replayed citation is an earlier position, holding the citable row of the same rank. */
  lemma CitationsDenoteNearestRows(rows: Rows, k: nat)
    requires Contiguous(rows) && ToDshEvents(rows).Ok? && k < |ToDshEvents(rows).value|
    requires ToDshEvents(rows).value[k].Copy? && ToDshEvents(rows).value[k].sources.Some?
    ensures k < |Ordered(rows)| && Ordered(rows)[k].Verbatim? && Ordered(rows)[k].at < |rows|
    ensures rows[Ordered(rows)[k].at].sources.Some? && rows[Ordered(rows)[k].at].sources.value.Cites?
    ensures var cited := ToDshEvents(rows).value[k].sources.value;
            var targets := CitedRows(rows, Ordered(rows)[k].at);
            && |cited| == |targets| == |rows[Ordered(rows)[k].at].sources.value.citations|
            && forall m :: 0 <= m < |cited| ==> cited[m] < k && Ordered(rows)[cited[m]] == Verbatim(targets[m])
  {
    OrderedIsReplayable(rows);
    ReplayedRowsAreFaithful(rows, k);
    assert Convert(rows, Ordered(rows), k) == Ok(ToDshEvents(rows).value[k]);
    RemapByRank(rows, k);
  }

  // ---------------------------------------------------------------- the live log it came from

  /** An event of the live log; `user/message` events and snapshots are `isMessage`. */
  datatype LiveEvent = LiveEvent(isMessage: bool, eventType: EventType, sources: Option<seq<nat>>)

  predicate CitableLive(live: seq<LiveEvent>, a: nat) {
    a < |live| && !live[a].isMessage && !IsAudit(live[a].eventType)
  }

  function CitableEvents(live: seq<LiveEvent>): nat -> bool {
    (a: nat) => CitableLive(live, a)
  }

  /** The premise of rank resolution: what this event cites are the nearest citable events before it. */
  predicate CitesNearest(live: seq<LiveEvent>, a: nat)
    requires a < |live| && live[a].sources.Some?
  {
    live[a].sources.value == Nearest(CitableEvents(live), a, |live[a].sources.value|)
  }

  predicate IsControl(t: EventType) {
    t.UserMessageRow? || t.ApprovalRow? || t.CancelRow?
  }

  /** `i` stores the live event `a`: the append copies its type and its citation list. */
  ghost predicate Stores(row: StoredEvent, event: LiveEvent) {
    && !event.isMessage && !IsControl(event.eventType) && row.eventType == event.eventType
    && (row.sources.Some? <==> event.sources.Some?)
    && (row.sources.Some? ==> row.sources.value.Cites? && |row.sources.value.citations| == |event.sources.value|)
  }

  /** The stored log holds every live event but the messages, in order, with control rows anywhere
      in between.  `origin[i]` is the live event row `i` stores, if it is not a control row. */
  ghost predicate PersistedFrom(rows: Rows, live: seq<LiveEvent>, origin: seq<Option<nat>>) {
    && |origin| == |rows|
    && (forall i :: 0 <= i < |rows| ==>
         if origin[i].None? then IsControl(rows[i].eventType)
         else origin[i].value < |live| && Stores(rows[i], live[origin[i].value]))
    && (forall i, j :: 0 <= i < j < |rows| && origin[i].Some? && origin[j].Some? ==> origin[i].value < origin[j].value)
    && (forall a: nat :: a < |live| && !live[a].isMessage ==> exists i :: 0 <= i < |rows| && origin[i] == Some(a))
  }

  function OriginOf(origin: seq<Option<nat>>): nat -> nat {
    (i: nat) => if i < |origin| && origin[i].Some? then origin[i].value else 0
  }

  lemma RowsMatchLive(rows: Rows, live: seq<LiveEvent>, origin: seq<Option<nat>>, i: nat)
    requires PersistedFrom(rows, live, origin) && i < |rows| && origin[i].Some?
    ensures Matches(CitableRows(rows), i, CitableEvents(live), origin[i].value, OriginOf(origin))
  {
    var f, citable := OriginOf(origin), CitableRows(rows);
    forall j: nat | j < i && citable(j) ensures f(j) < origin[i].value && CitableLive(live, f(j)) {
    }
    forall a: nat | a < origin[i].value && CitableLive(live, a)
      ensures exists j: nat :: j < i && citable(j) && f(j) == a
    {
      var j: nat :| j < |rows| && origin[j] == Some(a);
      assert j < i && citable(j);
    }
  }

  /** The live event a replayed position is the image of. */
  function LiveImage(rows: Rows, origin: seq<Option<nat>>, p: nat): Option<nat> {
    if p < |Ordered(rows)| && Ordered(rows)[p].Verbatim? && Ordered(rows)[p].at < |origin|
    then origin[Ordered(rows)[p].at] else None
  }

  /** Rank resolution cites the images of the nearest citable live events. */
  lemma CitationsDenoteNearestLive(rows: Rows, live: seq<LiveEvent>, origin: seq<Option<nat>>, k: nat)
    requires Contiguous(rows) && PersistedFrom(rows, live, origin)
    requires ToDshEvents(rows).Ok? && k < |ToDshEvents(rows).value|
    requires ToDshEvents(rows).value[k].Copy? && ToDshEvents(rows).value[k].sources.Some?
    ensures LiveImage(rows, origin, k).Some? && LiveImage(rows, origin, k).value < |live|
    ensures live[LiveImage(rows, origin, k).value].sources.Some?
    ensures var cited := ToDshEvents(rows).value[k].sources.value;
            var a := LiveImage(rows, origin, k).value;
            var nearest := Nearest(CitableEvents(live), a, |live[a].sources.value|);
            && |cited| == |nearest| == |live[a].sources.value|
            && forall m :: 0 <= m < |cited| ==> LiveImage(rows, origin, cited[m]) == Some(nearest[m])
  {
    CitationsDenoteNearestRows(rows, k);
    var i := Ordered(rows)[k].at;
    ReplayedRowsAreFaithful(rows, k);
    assert IsVerbatim(rows, i);
    RowsMatchLive(rows, live, origin, i);
    NearestMatches(CitableRows(rows), i, CitableEvents(live), origin[i].value, OriginOf(origin),
                   |rows[i].sources.value.citations|);
    var cited, targets := ToDshEvents(rows).value[k].sources.value, CitedRows(rows, i);
    forall m | 0 <= m < |cited| ensures LiveImage(rows, origin, cited[m]) == Some(OriginOf(origin)(targets[m])) {
      assert CitableRow(rows, targets[m]);
    }
  }

  /** A replayed event cites the images of what its live event cited exactly when that live event
      cites its nearest citable events. */
  lemma ReplayPreservesCitationsIff(rows: Rows, live: seq<LiveEvent>, origin: seq<Option<nat>>, k: nat)
    requires Contiguous(rows) && PersistedFrom(rows, live, origin)
    requires ToDshEvents(rows).Ok? && k < |ToDshEvents(rows).value|
    requires ToDshEvents(rows).value[k].Copy? && ToDshEvents(rows).value[k].sources.Some?
    ensures LiveImage(rows, origin, k).Some? && LiveImage(rows, origin, k).value < |live|
    ensures live[LiveImage(rows, origin, k).value].sources.Some?
    ensures var cited := ToDshEvents(rows).value[k].sources.value;
            var a := LiveImage(rows, origin, k).value;
            |cited| == |live[a].sources.value|
            && (CitesNearest(live, a) <==>
                 forall m :: 0 <= m < |cited| ==> LiveImage(rows, origin, cited[m]) == Some(live[a].sources.value[m]))
  {
    CitationsDenoteNearestLive(rows, live, origin, k);
  }

  function PlainRow(number: nat, eventType: EventType, sources: Option<Sources>): StoredEvent {
    StoredEvent(number, eventType, 0, Data(None, ""), sources, None)
  }

  // Two calls open at once, and the first one's result.
  const PARALLEL_LIVE: seq<LiveEvent> :=
    [LiveEvent(false, ToolCall, None), LiveEvent(false, ToolCall, None), LiveEvent(false, ToolResult, Some([0]))]
  const PARALLEL_ROWS: Rows :=
    [PlainRow(0, ToolCall, None), PlainRow(1, ToolCall, None), PlainRow(2, ToolResult, Some(Cites([To(0)])))]
  const PARALLEL_ORIGIN: seq<Option<nat>> := [Some(0), Some(1), Some(2)]

  lemma ParallelRowsReplay()
    ensures Contiguous(PARALLEL_ROWS) && ToDshEvents(PARALLEL_ROWS).Ok?
    ensures CitedRows(PARALLEL_ROWS, 2) == [1]
  {
    var rows := PARALLEL_ROWS;
    assert CitableRows(rows)(1);
    assert Nearest(CitableRows(rows), 1, 0) == [];
    assert CitedRows(rows, 2) == [1];
    assert Types(rows, [1])[0].ToolCall?;
    forall i: nat | i < |rows| ensures RowOk(rows, i) {
    }
    ReplaysIffEveryRowOk(rows);
  }

  lemma ParallelRowsArePersisted()
    ensures PersistedFrom(PARALLEL_ROWS, PARALLEL_LIVE, PARALLEL_ORIGIN)
  {
    assert forall a: nat :: a < 3 ==> PARALLEL_ORIGIN[a] == Some(a);
  }

  /** The premise is needed: the first result does not cite its nearest event, and the stored log
      still replays, citing the other call. */
  lemma ParallelCallsAreMisCited() returns (k: nat)
    ensures PersistedFrom(PARALLEL_ROWS, PARALLEL_LIVE, PARALLEL_ORIGIN)
    ensures Contiguous(PARALLEL_ROWS) && ToDshEvents(PARALLEL_ROWS).Ok? && k < |ToDshEvents(PARALLEL_ROWS).value|
    ensures var event := ToDshEvents(PARALLEL_ROWS).value[k];
            && LiveImage(PARALLEL_ROWS, PARALLEL_ORIGIN, k) == Some(2)
            && event.Copy? && event.sources.Some? && |event.sources.value| == 1
            && LiveImage(PARALLEL_ROWS, PARALLEL_ORIGIN, event.sources.value[0]) == Some(1)
  {
    var rows := PARALLEL_ROWS;
    ParallelRowsArePersisted();
    ParallelRowsReplay();
    k := PlaceOf(rows, 2);
    CitesTheOtherCall(k);
  }

  lemma CitesTheOtherCall(k: nat)
    requires Contiguous(PARALLEL_ROWS) && ToDshEvents(PARALLEL_ROWS).Ok? && CitedRows(PARALLEL_ROWS, 2) == [1]
    requires k < |ToDshEvents(PARALLEL_ROWS).value| && k < |Ordered(PARALLEL_ROWS)|
    requires Ordered(PARALLEL_ROWS)[k] == Verbatim(2)
    ensures var event := ToDshEvents(PARALLEL_ROWS).value[k];
            && event.Copy? && event.sources.Some? && |event.sources.value| == 1
            && event.sources.value[0] < |Ordered(PARALLEL_ROWS)|
            && Ordered(PARALLEL_ROWS)[event.sources.value[0]] == Verbatim(1)
  {
    ReplayedRowsAreFaithful(PARALLEL_ROWS, k);
    CitationsDenoteNearestRows(PARALLEL_ROWS, k);
  }

  /** Where a verbatim row stands. */
  lemma PlaceOf(rows: Rows, i: nat) returns (k: nat)
    requires IsVerbatim(rows, i)
    ensures k < |Ordered(rows)| && Ordered(rows)[k] == Verbatim(i)
    ensures ToDshEvents(rows).Ok? ==> k < |ToDshEvents(rows).value|
  {
    OrderedIsSorted(rows);
    OrderedIsReplayable(rows);
    assert IsItem(rows, Verbatim(i));
    k :| k < |Ordered(rows)| && Ordered(rows)[k] == Verbatim(i);
  }

  /** Two chunks and the message that cites both. */
  const CHUNKED_ROWS: Rows :=
    [PlainRow(0, AssistantChunk, None), PlainRow(1, AssistantChunk, None),
     PlainRow(2, AssistantMessage, Some(Cites([To(0), To(1)])))]

  lemma ChunksAreCited()
    ensures CitedRows(CHUNKED_ROWS, 2) == [0, 1]
  {
    var ok := CitableRows(CHUNKED_ROWS);
    assert ok(0) && ok(1);
    assert Nearest(ok, 0, 0) == [];
    assert Nearest(ok, 1, 1) == [0];
    assert Nearest(ok, 2, 2) == [0, 1];
  }

  lemma ChunkedCitationsOk()
    ensures CitationsOk(CHUNKED_ROWS, 2)
  {
    ChunksAreCited();
    var types := Types(CHUNKED_ROWS, [0, 1]);
    assert types[0].AssistantChunk? && types[1].AssistantChunk?;
  }

  lemma ChunkedRowsOk()
    ensures forall i: nat :: i < 3 ==> RowOk(CHUNKED_ROWS, i)
  {
    ChunkedCitationsOk();
    assert RowOk(CHUNKED_ROWS, 0) && RowOk(CHUNKED_ROWS, 1);
  }

  /** It replays, and the message cites both chunks. */
  lemma ChunkedMessageReplays()
    ensures Contiguous(CHUNKED_ROWS) && ToDshEvents(CHUNKED_ROWS).Ok? && |ToDshEvents(CHUNKED_ROWS).value| == 3
    ensures var event := ToDshEvents(CHUNKED_ROWS).value[2];
            event.Copy? && event.eventType == AssistantMessage && event.sources == Some([0, 1])
  {
    var rows := CHUNKED_ROWS;
    ChunksAreCited();
    ChunkedRowsOk();
    ReplaysIffEveryRowOk(rows);
    assert Scan(rows, 1).ordered == [Verbatim(0)];
    assert Scan(rows, 2).ordered == [Verbatim(0), Verbatim(1)];
    assert Ordered(rows) == [Verbatim(0), Verbatim(1), Verbatim(2)];
    ReplayedRowsAreFaithful(rows, 2);
    CitationsDenoteNearestRows(rows, 2);
  }

  // ---------------------------------------------------------------- a longer log

  lemma {:induction false} ScanOfPrefix(rows: Rows, more: Rows, n: nat)
    requires n <= |rows|
    ensures Scan(rows + more, n) == Scan(rows, n)
  {
    if n > 0 {
      ScanOfPrefix(rows, more, n - 1);
    }
  }

  lemma {:induction false} ScanOnlyAppends(rows: Rows, n: nat, m: nat)
    requires n <= m <= |rows|
    ensures Scan(rows, n).ordered <= Scan(rows, m).ordered
  {
    if n < m {
      ScanOnlyAppends(rows, n, m - 1);
    }
  }

  /** What the pass has placed by the end of the log: all but the messages no step has consumed. */
  function Placed(rows: Rows): seq<Item> {
    Scan(rows, |rows|).ordered
  }

  lemma TailIsUnconsumed(rows: Rows, k: nat)
    requires |Placed(rows)| <= k < |Ordered(rows)|
    ensures Ordered(rows)[k].User? && NextOpening(rows, Ordered(rows)[k].at + 1) == |rows|
  {
    ScanKeepsInv(rows, |rows|);
    var pending := Scan(rows, |rows|).pending;
    UsersAt(pending);
    var l := k - |Placed(rows)|;
    assert Ordered(rows)[k] == Users(pending)[l] == User(pending[l]);
    assert PendingInv(rows, |rows|, pending);
  }

  /** Appending rows leaves every placed item where it is; what is not placed are the messages
      that no step has consumed. */
  lemma PlacedItemsStay(rows: Rows, more: Rows)
    ensures Placed(rows) <= Ordered(rows)
    ensures Placed(rows) <= Ordered(rows + more)
    ensures forall k: nat :: |Placed(rows)| <= k < |Ordered(rows)| ==>
              Ordered(rows)[k].User? && NextOpening(rows, Ordered(rows)[k].at + 1) == |rows|
  {
    ScanOfPrefix(rows, more, |rows|);
    ScanOnlyAppends(rows + more, |rows|, |rows + more|);
    forall k: nat | |Placed(rows)| <= k < |Ordered(rows)|
      ensures Ordered(rows)[k].User? && NextOpening(rows, Ordered(rows)[k].at + 1) == |rows|
    {
      TailIsUnconsumed(rows, k);
    }
  }

  lemma SameRowsSameCitations(rows: Rows, more: Rows, i: nat)
    requires i < |rows| && rows[i].sources.Some? && rows[i].sources.value.Cites?
    ensures CitedRows(rows + more, i) == CitedRows(rows, i)
  {
    NearestAgrees(CitableRows(rows + more), CitableRows(rows), i, |rows[i].sources.value.citations|);
  }

  lemma RowOkOfPrefix(rows: Rows, more: Rows, i: nat)
    requires i < |rows| && RowOk(rows + more, i)
    ensures RowOk(rows, i)
  {
    if rows[i].sources.Some? && rows[i].sources.value.Cites? {
      SameRowsSameCitations(rows, more, i);
      assert Types(rows, CitedRows(rows, i)) == Types(rows + more, CitedRows(rows, i));
    }
  }

  /** An item placed by both logs is converted alike. */
  lemma ConvertedAlike(rows: Rows, more: Rows, k: nat)
    requires Contiguous(rows + more) && k < |Placed(rows)|
    requires ToDshEvents(rows).Ok? && ToDshEvents(rows + more).Ok?
    ensures k < |ToDshEvents(rows).value| && k < |ToDshEvents(rows + more).value|
    ensures ToDshEvents(rows).value[k] == ToDshEvents(rows + more).value[k]
  {
    PlacedItemsStay(rows, more);
    OrderedIsReplayable(rows);
    OrderedIsReplayable(rows + more);
    var item, longer := Ordered(rows)[k], rows + more;
    assert item == Placed(rows)[k] == Ordered(longer)[k];
    assert IsItem(rows, item);
    assert Contiguous(rows) by {
      assert forall i :: 0 <= i < |rows| ==> rows[i] == longer[i];
    }
    if item.Verbatim? && rows[item.at].sources.Some? {
      FindsItself(rows, k);
      FindsItself(longer, k);
      forall p: nat | p < k
        ensures CitableItems(rows, Ordered(rows))(p) == CitableItems(longer, Ordered(longer))(p)
      {
        assert Ordered(rows)[p] == Placed(rows)[p] == Ordered(longer)[p];
        assert IsItem(rows, Ordered(rows)[p]);
      }
      ConvertsIff(rows, k);
      NearestAgrees(CitableItems(rows, Ordered(rows)), CitableItems(longer, Ordered(longer)), k,
                    |rows[item.at].sources.value.citations|);
    }
    assert Convert(rows, Ordered(rows), k) == Ok(ToDshEvents(rows).value[k]);
    assert Convert(longer, Ordered(longer), k) == Ok(ToDshEvents(longer).value[k]);
  }

  /** Replay is incremental: if the longer log replays so does the shorter, every placed event keeps
      its number and its citations, and only trailing unconsumed messages can move. */
  lemma ReplayIsIncremental(rows: Rows, more: Rows)
    requires Contiguous(rows + more) && ToDshEvents(rows + more).Ok?
    ensures ToDshEvents(rows).Ok?
    ensures |Placed(rows)| <= |ToDshEvents(rows).value| && |Placed(rows)| <= |ToDshEvents(rows + more).value|
    ensures ToDshEvents(rows).value[..|Placed(rows)|] == ToDshEvents(rows + more).value[..|Placed(rows)|]
    ensures forall k :: |Placed(rows)| <= k < |ToDshEvents(rows).value| ==> ToDshEvents(rows).value[k].UserText?
  {
    assert Contiguous(rows) by {
      assert forall i :: 0 <= i < |rows| ==> rows[i] == (rows + more)[i];
    }
    ReplaysIffEveryRowOk(rows + more);
    forall i: nat | i < |rows| ensures RowOk(rows, i) {
      RowOkOfPrefix(rows, more, i);
    }
    ReplaysIffEveryRowOk(rows);
    PlacedItemsStay(rows, more);
    OrderedIsReplayable(rows);
    OrderedIsReplayable(rows + more);
    forall k: nat | k < |Placed(rows)|
      ensures ToDshEvents(rows).value[k] == ToDshEvents(rows + more).value[k]
    {
      ConvertedAlike(rows, more, k);
    }
    forall k: nat | |Placed(rows)| <= k < |ToDshEvents(rows).value| ensures ToDshEvents(rows).value[k].UserText? {
      ReplayedRowsAreFaithful(rows, k);
    }
  }
}

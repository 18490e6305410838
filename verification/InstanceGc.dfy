/** One sweep over stopped instances (apps/control-plane/src/instance-gc.ts): candidates by age, a
    cap, a re-read before each deletion, and an account of every candidate. */
module InstanceGc {
  import opened Wrappers

  datatype RuntimeState = STOPPED | Other(name: string)

  /** The three dates are absent when they are null or do not parse. */
  datatype Workspace = Workspace(
    id: string, state: RuntimeState, instanceName: Option<string>,
    lastActivityAt: Option<int>, updatedAt: Option<int>, createdAt: Option<int>)

  // ---------------------------------------------------------------- candidacy

  function Later(a: Option<int>, b: Option<int>): Option<int> {
    if a.None? then b else if b.None? then a else if a.value < b.value then b else a
  }

  function LastUsed(w: Workspace): Option<int> {
    Later(Later(w.lastActivityAt, w.updatedAt), w.createdAt)
  }

  /** An empty name counts as none. */
  predicate HasInstance(w: Workspace) {
    w.instanceName.Some? && w.instanceName.value != ""
  }

  predicate Eligible(w: Workspace, now: int, staleAfter: int) {
    && w.state.STOPPED? && HasInstance(w)
    && LastUsed(w).Some? && now - LastUsed(w).value >= staleAfter
  }

  predicate IsDate(w: Workspace, date: int) {
    Some(date) in {w.lastActivityAt, w.updatedAt, w.createdAt}
  }

  /** The last use is the newest of the dates there are. */
  lemma LastUsedIsNewest(w: Workspace)
    ensures LastUsed(w).None? <==> forall date :: !IsDate(w, date)
    ensures LastUsed(w).Some? ==>
              IsDate(w, LastUsed(w).value) && forall date :: IsDate(w, date) ==> date <= LastUsed(w).value
  {
    if LastUsed(w).None? {
      assert w.lastActivityAt.None? && w.updatedAt.None? && w.createdAt.None?;
    } else {
      assert IsDate(w, LastUsed(w).value);
    }
  }

  function Age(w: Workspace): int {
    if LastUsed(w).Some? then LastUsed(w).value else 0
  }

  /** Before the first candidate used later: a stable place. */
  function Insert(sorted: seq<Workspace>, w: Workspace): seq<Workspace> {
    if sorted == [] || Age(sorted[|sorted| - 1]) <= Age(w) then sorted + [w]
    else Insert(sorted[..|sorted| - 1], w) + [sorted[|sorted| - 1]]
  }

  /** `filter(...).sort(...)`: the eligible rows, oldest use first. */
  function Candidates(rows: seq<Workspace>, now: int, staleAfter: int): seq<Workspace> {
    if rows == [] then []
    else
      var before, w := Candidates(rows[..|rows| - 1], now, staleAfter), rows[|rows| - 1];
      if Eligible(w, now, staleAfter) then Insert(before, w) else before
  }

  ghost predicate OldestFirst(s: seq<Workspace>) {
    forall i, j :: 0 <= i < j < |s| ==> Age(s[i]) <= Age(s[j])
  }

  lemma {:induction false} InsertAddsOne(s: seq<Workspace>, w: Workspace)
    ensures multiset(Insert(s, w)) == multiset(s) + multiset{w} && |Insert(s, w)| == |s| + 1
  {
    if s != [] && Age(s[|s| - 1]) > Age(w) {
      InsertAddsOne(s[..|s| - 1], w);
      assert s == s[..|s| - 1] + [s[|s| - 1]];
    }
  }

  lemma InsertHolds(s: seq<Workspace>, w: Workspace)
    ensures forall x :: x in Insert(s, w) <==> x == w || x in s
  {
    InsertAddsOne(s, w);
    forall x ensures x in Insert(s, w) <==> x == w || x in s {
      assert x in Insert(s, w) <==> multiset(Insert(s, w))[x] > 0;
      assert x in s <==> multiset(s)[x] > 0;
    }
  }

  lemma {:induction false} InsertKeepsOrder(s: seq<Workspace>, w: Workspace)
    requires OldestFirst(s)
    ensures OldestFirst(Insert(s, w))
  {
    if s != [] && Age(s[|s| - 1]) > Age(w) {
      var front, last := s[..|s| - 1], s[|s| - 1];
      InsertKeepsOrder(front, w);
      InsertHolds(front, w);
      var placed := Insert(front, w);
      forall i | 0 <= i < |placed| ensures Age(placed[i]) <= Age(last) {
        assert placed[i] in placed;
        assert placed[i] in front ==> Age(placed[i]) <= Age(last);
      }
    }
  }

  /** `filter` alone. */
  function EligibleRows(rows: seq<Workspace>, now: int, staleAfter: int): (r: seq<Workspace>)
    ensures |r| <= |rows|
    ensures forall w :: w in r <==> w in rows && Eligible(w, now, staleAfter)
  {
    if rows == [] then []
    else
      var front, w := rows[..|rows| - 1], rows[|rows| - 1];
      assert rows == front + [w];
      EligibleRows(front, now, staleAfter) + if Eligible(w, now, staleAfter) then [w] else []
  }

  /** The candidates are a permutation of the eligible rows, least recently used first. */
  lemma {:induction false} CandidatesAreEligible(rows: seq<Workspace>, now: int, staleAfter: int)
    ensures OldestFirst(Candidates(rows, now, staleAfter))
    ensures multiset(Candidates(rows, now, staleAfter)) == multiset(EligibleRows(rows, now, staleAfter))
    ensures |Candidates(rows, now, staleAfter)| == |EligibleRows(rows, now, staleAfter)|
  {
    if rows != [] {
      var front, w := rows[..|rows| - 1], rows[|rows| - 1];
      CandidatesAreEligible(front, now, staleAfter);
      InsertKeepsOrder(Candidates(front, now, staleAfter), w);
      InsertAddsOne(Candidates(front, now, staleAfter), w);
    }
  }

  lemma CandidateIsEligible(rows: seq<Workspace>, now: int, staleAfter: int, w: Workspace)
    ensures w in Candidates(rows, now, staleAfter) <==> w in rows && Eligible(w, now, staleAfter)
  {
    CandidatesAreEligible(rows, now, staleAfter);
    var c, e := Candidates(rows, now, staleAfter), EligibleRows(rows, now, staleAfter);
    assert w in c <==> w in multiset(c);
    assert w in e <==> w in multiset(e);
  }

  /** Stopped, with the name of an instance, and last used, by every date there is, `staleAfter` ago or more. */
  ghost predicate LongIdle(w: Workspace, now: int, staleAfter: int) {
    && w.state == STOPPED && w.instanceName.Some? && w.instanceName.value != ""
    && (w.lastActivityAt.Some? || w.updatedAt.Some? || w.createdAt.Some?)
    && (w.lastActivityAt.Some? ==> w.lastActivityAt.value + staleAfter <= now)
    && (w.updatedAt.Some? ==> w.updatedAt.value + staleAfter <= now)
    && (w.createdAt.Some? ==> w.createdAt.value + staleAfter <= now)
  }

  /** The candidates are exactly the rows that have been idle that long. */
  lemma CandidateIffLongIdle(rows: seq<Workspace>, now: int, staleAfter: int, w: Workspace)
    ensures w in Candidates(rows, now, staleAfter) <==> w in rows && LongIdle(w, now, staleAfter)
  {
    CandidateIsEligible(rows, now, staleAfter, w);
    LastUsedIsNewest(w);
    assert w.lastActivityAt.Some? ==> IsDate(w, w.lastActivityAt.value);
    assert w.updatedAt.Some? ==> IsDate(w, w.updatedAt.value);
    assert w.createdAt.Some? ==> IsDate(w, w.createdAt.value);
  }

  // ---------------------------------------------------------------- the sweep

  /** How the services answer for one candidate; the first call to fail ends its iteration. */
  datatype Reply = Reply(reread: Result<Option<Workspace>, string>, handle: bool, delete: bool, clear: bool)

  datatype Call =
    | Reread(id: string, found: Option<Workspace>)
    | DeleteInstance(id: string)
    | ClearUrl(id: string)

  datatype Outcome = Deleted | Skipped | Failed

  /** The re-read still shows a stopped workspace under the same instance name. */
  predicate StillStopped(w: Workspace, found: Option<Workspace>) {
    found.Some? && found.value.state.STOPPED? && found.value.instanceName == w.instanceName
  }

  function OutcomeOf(w: Workspace, r: Reply): Outcome {
    if r.reread.Err? then Failed
    else if !StillStopped(w, r.reread.value) then Skipped
    else if r.handle && r.delete && r.clear then Deleted
    else Failed
  }

  function CallsOf(w: Workspace, r: Reply): seq<Call> {
    if r.reread.Err? then []
    else if !StillStopped(w, r.reread.value) || !r.handle then [Reread(w.id, r.reread.value)]
    else if !r.delete then [Reread(w.id, r.reread.value), DeleteInstance(w.id)]
    else [Reread(w.id, r.reread.value), DeleteInstance(w.id), ClearUrl(w.id)]
  }

  /** The re-read, unless it failed, then the deletion, if the row is still a stopped one of that name and
      its handle is found, then the clearing of its address, if the deletion went through. */
  lemma CallsAre(w: Workspace, r: Reply)
    ensures var calls := CallsOf(w, r);
            var read := r.reread.Ok?;
            var goes := read && r.reread.value.Some? && r.reread.value.value.state == STOPPED
                        && r.reread.value.value.instanceName == w.instanceName;
            && |calls| == (if !read then 0 else if !goes || !r.handle then 1 else if !r.delete then 2 else 3)
            && (|calls| > 0 ==> calls[0] == Reread(w.id, r.reread.value))
            && (|calls| > 1 ==> calls[1] == DeleteInstance(w.id))
            && (|calls| > 2 ==> calls[2] == ClearUrl(w.id))
  {
  }

  datatype Report = Report(checked: nat, eligible: nat, deleted: nat, failed: nat, skipped: nat, deferred: nat)

  function Deletions(calls: seq<Call>): nat {
    if calls == [] then 0 else Deletions(calls[..|calls| - 1]) + if calls[|calls| - 1].DeleteInstance? then 1 else 0
  }

  lemma {:induction false} DeletionsAdd(a: seq<Call>, b: seq<Call>)
    ensures Deletions(a + b) == Deletions(a) + Deletions(b)
  {
    if b == [] {
      assert a + b == a;
    } else {
      DeletionsAdd(a, b[..|b| - 1]);
      assert (a + b)[..|a + b| - 1] == a + b[..|b| - 1];
    }
  }

  /** Every deletion comes right after a re-read, of the same candidate, that found it stopped and unrenamed. */
  ghost predicate Guarded(calls: seq<Call>, batch: seq<Workspace>) {
    forall k :: 0 <= k < |calls| && calls[k].DeleteInstance? ==>
      && k > 0 && calls[k - 1].Reread? && calls[k - 1].id == calls[k].id
      && exists w :: w in batch && w.id == calls[k].id && FoundStopped(w, calls[k - 1].found)
  }

  /** What a deletion goes by. */
  ghost predicate FoundStopped(w: Workspace, found: Option<Workspace>) {
    found.Some? && found.value.state == STOPPED && found.value.instanceName == w.instanceName
  }

  function Cap(n: nat, maxDeletes: int): nat {
    if maxDeletes <= 0 then 0 else if n < maxDeletes then n else maxDeletes
  }

  lemma OneMoreDeletion(calls: seq<Call>, w: Workspace, r: Reply)
    ensures Deletions(calls) <= Deletions(calls + CallsOf(w, r)) <= Deletions(calls) + 1
    ensures OutcomeOf(w, r).Deleted? ==> Deletions(calls + CallsOf(w, r)) == Deletions(calls) + 1
    ensures OutcomeOf(w, r).Skipped? ==> Deletions(calls + CallsOf(w, r)) == Deletions(calls)
  {
    OneDeletion(w, r);
    DeletionsAdd(calls, CallsOf(w, r));
  }

  lemma OneGuarded(w: Workspace, r: Reply, batch: seq<Workspace>)
    requires w in batch
    ensures Guarded(CallsOf(w, r), batch)
  {
    var calls := CallsOf(w, r);
    if |calls| > 1 {
      assert w.id == calls[1].id && FoundStopped(w, calls[0].found);
    }
  }

  /** A deletion is issued for a candidate counted as deleted, never for a skipped one, and for a
      failed one exactly when it is the deletion or what follows it that failed. */
  lemma OneDeletion(w: Workspace, r: Reply)
    ensures Deletions(CallsOf(w, r)) == match OutcomeOf(w, r)
                                        case Deleted => 1
                                        case Skipped => 0
                                        case Failed => if r.reread.Ok? && r.handle then 1 else 0
  {
    var calls := CallsOf(w, r);
    assert calls[..0] == [];
    if |calls| > 0 { assert Deletions(calls[..1]) == 0 by { assert calls[..1][..0] == []; } }
    if |calls| > 1 { assert Deletions(calls[..2]) == 1 by { assert calls[..2][..1] == calls[..1]; } }
    assert calls[..|calls|] == calls;
    if |calls| > 2 { assert calls[..|calls| - 1] == calls[..2]; }
  }

  lemma GuardedAppend(a: seq<Call>, b: seq<Call>, batch: seq<Workspace>)
    requires Guarded(a, batch) && Guarded(b, batch)
    ensures Guarded(a + b, batch)
  {
    var calls := a + b;
    forall k | 0 <= k < |calls| && calls[k].DeleteInstance?
      ensures k > 0 && calls[k - 1].Reread? && calls[k - 1].id == calls[k].id
      ensures exists w :: w in batch && w.id == calls[k].id && FoundStopped(w, calls[k - 1].found)
    {
      if k >= |a| {
        assert b[k - |a|] == calls[k];
      }
    }
  }

  /** All the calls of the first `n` iterations, in order. */
  function AllCalls(batch: seq<Workspace>, replies: seq<Reply>, n: nat): seq<Call>
    requires n <= |batch| <= |replies|
  {
    if n == 0 then [] else AllCalls(batch, replies, n - 1) + CallsOf(batch[n - 1], replies[n - 1])
  }

  function Tally(batch: seq<Workspace>, replies: seq<Reply>, n: nat, o: Outcome): nat
    requires n <= |batch| <= |replies|
  {
    if n == 0 then 0
    else Tally(batch, replies, n - 1, o) + if OutcomeOf(batch[n - 1], replies[n - 1]) == o then 1 else 0
  }

  /** The calls come candidate by candidate, in the order of the batch. */
  lemma {:induction false} CallsFollowTheBatch(batch: seq<Workspace>, replies: seq<Reply>, n: nat, i: nat, j: nat)
    returns (a: nat, b: nat)
    requires n <= |batch| <= |replies| && i < j < |AllCalls(batch, replies, n)|
    ensures a <= b < n && AllCalls(batch, replies, n)[i] in CallsOf(batch[a], replies[a])
    ensures AllCalls(batch, replies, n)[j] in CallsOf(batch[b], replies[b])
  {
    var before := AllCalls(batch, replies, n - 1);
    if j < |before| {
      a, b := CallsFollowTheBatch(batch, replies, n - 1, i, j);
    } else {
      b := n - 1;
      a := if i < |before| then WhoCalled(batch, replies, n - 1, i) else n - 1;
    }
  }

  function WhoCalled(batch: seq<Workspace>, replies: seq<Reply>, n: nat, i: nat): (a: nat)
    requires n <= |batch| <= |replies| && i < |AllCalls(batch, replies, n)|
    ensures a < n && AllCalls(batch, replies, n)[i] in CallsOf(batch[a], replies[a])
  {
    if i < |AllCalls(batch, replies, n - 1)| then WhoCalled(batch, replies, n - 1, i) else n - 1
  }

  /** Each candidate is counted once. */
  lemma {:induction false} CandidatesAddUp(batch: seq<Workspace>, replies: seq<Reply>, n: nat)
    requires n <= |batch| <= |replies|
    ensures Tally(batch, replies, n, Deleted) + Tally(batch, replies, n, Skipped)
            + Tally(batch, replies, n, Failed) == n
  {
    if n > 0 {
      CandidatesAddUp(batch, replies, n - 1);
    }
  }

  /** Whatever the re-reads return and whichever calls fail, every deletion is guarded. */
  lemma {:induction false} SweepIsGuarded(batch: seq<Workspace>, replies: seq<Reply>, n: nat)
    requires n <= |batch| <= |replies|
    ensures Guarded(AllCalls(batch, replies, n), batch)
  {
    if n > 0 {
      SweepIsGuarded(batch, replies, n - 1);
      OneGuarded(batch[n - 1], replies[n - 1], batch);
      GuardedAppend(AllCalls(batch, replies, n - 1), CallsOf(batch[n - 1], replies[n - 1]), batch);
    }
  }

  /** And there is at least one for each candidate counted as deleted, and none for a skipped one. */
  lemma {:induction false} DeletionsAreAccounted(batch: seq<Workspace>, replies: seq<Reply>, n: nat)
    requires n <= |batch| <= |replies|
    ensures Tally(batch, replies, n, Deleted) <= Deletions(AllCalls(batch, replies, n))
         <= Tally(batch, replies, n, Deleted) + Tally(batch, replies, n, Failed)
  {
    if n > 0 {
      DeletionsAreAccounted(batch, replies, n - 1);
      OneMoreDeletion(AllCalls(batch, replies, n - 1), batch[n - 1], replies[n - 1]);
    }
  }

  /** A sweep issues at most as many deletions as the cap allows. */
  lemma DeletionsAreCapped(rows: seq<Workspace>, now: int, staleAfter: int, maxDeletes: int, replies: seq<Reply>)
    requires |replies| >= |rows|
    ensures var c := Candidates(rows, now, staleAfter);
            var n := Cap(|c|, maxDeletes);
            |c| <= |replies| && Deletions(AllCalls(c[..n], replies, n)) <= if maxDeletes < 0 then 0 else maxDeletes
  {
    CandidatesAreEligible(rows, now, staleAfter);
    var c := Candidates(rows, now, staleAfter);
    var n := Cap(|c|, maxDeletes);
    CandidatesAddUp(c[..n], replies, n);
    DeletionsAreAccounted(c[..n], replies, n);
  }

  /** One iteration of the loop. */
  method ReapOne(w: Workspace, r: Reply) returns (outcome: Outcome, calls: seq<Call>)
    ensures outcome == OutcomeOf(w, r) && calls == CallsOf(w, r)
    ensures outcome == Failed <==>
              r.reread.Err? || (FoundStopped(w, r.reread.value) && !(r.handle && r.delete && r.clear))
    ensures outcome == Skipped <==> r.reread.Ok? && !FoundStopped(w, r.reread.value)
  {
    calls := [];
    if r.reread.Err? {
      return Failed, calls;
    }
    var found := r.reread.value;
    calls := calls + [Reread(w.id, found)];
    if found.None? {
      return Skipped, calls;
    }
    if !found.value.state.STOPPED? {
      return Skipped, calls;
    }
    if found.value.instanceName != w.instanceName {
      return Skipped, calls;
    }
    if !r.handle {
      return Failed, calls;
    }
    calls := calls + [DeleteInstance(w.id)];
    if !r.delete {
      return Failed, calls;
    }
    calls := calls + [ClearUrl(w.id)];
    outcome := if r.clear then Deleted else Failed;
  }

  method ReapBatch(batch: seq<Workspace>, replies: seq<Reply>)
    returns (deleted: nat, failed: nat, skipped: nat, calls: seq<Call>)
    requires |batch| <= |replies|
    ensures calls == AllCalls(batch, replies, |batch|)
    ensures deleted == Tally(batch, replies, |batch|, Deleted)
    ensures skipped == Tally(batch, replies, |batch|, Skipped)
    ensures failed == Tally(batch, replies, |batch|, Failed)
  {
    calls, deleted, failed, skipped := [], 0, 0, 0;
    for i := 0 to |batch|
      invariant calls == AllCalls(batch, replies, i)
      invariant deleted == Tally(batch, replies, i, Deleted)
      invariant skipped == Tally(batch, replies, i, Skipped)
      invariant failed == Tally(batch, replies, i, Failed)
    {
      var outcome, made := ReapOne(batch[i], replies[i]);
      calls := calls + made;
      match outcome {
        case Deleted => deleted := deleted + 1;
        case Skipped => skipped := skipped + 1;
        case Failed => failed := failed + 1;
      }
    }
  }

  /** `reapStaleStoppedInstances`, with the services' answers given, one for each candidate in turn. */
  method Reap(rows: seq<Workspace>, now: int, staleAfter: int, maxDeletes: int, replies: seq<Reply>)
    returns (report: Report, calls: seq<Call>)
    requires |replies| >= |rows|
    ensures var c := Candidates(rows, now, staleAfter);
            var n := Cap(|c|, maxDeletes);
            && |c| <= |replies|
            && calls == AllCalls(c[..n], replies, n)
            && report == Report(|rows|, |c|, Tally(c[..n], replies, n, Deleted), Tally(c[..n], replies, n, Failed),
                                Tally(c[..n], replies, n, Skipped), |c| - n)
            && report.deleted + report.failed + report.skipped + report.deferred == report.eligible
    ensures report.deferred == if maxDeletes <= 0 then report.eligible
                               else if report.eligible <= maxDeletes then 0 else report.eligible - maxDeletes
    ensures report.checked == |rows| && report.eligible == |Candidates(rows, now, staleAfter)|
    ensures forall k :: 0 <= k < |calls| && calls[k].DeleteInstance? ==>
              && k > 0 && calls[k - 1].Reread? && calls[k - 1].id == calls[k].id
              && exists w :: w in rows && LongIdle(w, now, staleAfter) && w.id == calls[k].id
                             && FoundStopped(w, calls[k - 1].found)
  {
    var candidates := Candidates(rows, now, staleAfter);
    CandidatesAreEligible(rows, now, staleAfter);
    var n := Cap(|candidates|, maxDeletes);
    var deleted, failed, skipped, made := ReapBatch(candidates[..n], replies);
    CandidatesAddUp(candidates[..n], replies, n);
    calls := made;
    SweepIsGuarded(candidates[..n], replies, n);
    forall k | 0 <= k < |calls| && calls[k].DeleteInstance?
      ensures exists w :: w in rows && LongIdle(w, now, staleAfter) && w.id == calls[k].id
                          && FoundStopped(w, calls[k - 1].found)
    {
      var w :| w in candidates[..n] && w.id == calls[k].id && FoundStopped(w, calls[k - 1].found);
      CandidateIffLongIdle(rows, now, staleAfter, w);
    }
    report := Report(|rows|, |candidates|, deleted, failed, skipped, |candidates| - n);
  }

  /** No candidate that is processed was used later than one that is spared. */
  lemma SparesTheMostRecent(rows: seq<Workspace>, now: int, staleAfter: int, maxDeletes: int, x: Workspace,
                            y: Workspace)
    requires var c := Candidates(rows, now, staleAfter);
             var n := Cap(|c|, maxDeletes);
             x in c[..n] && y in c[n..]
    ensures LastUsed(x).Some? && LastUsed(y).Some? && LastUsed(x).value <= LastUsed(y).value
  {
    CandidatesAreEligible(rows, now, staleAfter);
    var c := Candidates(rows, now, staleAfter);
    var n := Cap(|c|, maxDeletes);
    var i :| 0 <= i < n && c[..n][i] == x;
    var j :| 0 <= j < |c| - n && c[n..][j] == y;
    assert c[i] == x && c[n + j] == y;
    CandidateIsEligible(rows, now, staleAfter, x);
    CandidateIsEligible(rows, now, staleAfter, y);
  }
}

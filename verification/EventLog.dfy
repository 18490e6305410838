/** Appending to the durable log of one session
    (packages/session-persistence-postgres/src/repository.ts).

    `SessionEvents.Append` is the method body run alone.  `Db` and `Next` split it into the
    SQL statements of concurrent transactions, which may interleave and abort anywhere.  The
    parent-row lock is a parameter of the machine, so that what it buys can be told apart
    from what the primary key already guarantees. */
module EventLog {
  import opened Wrappers

  datatype Row<E> = Row(number: nat, event: E)

  /** The rows of one session; the key is the primary key `(session_id, seq)`. */
  type Table<E> = map<nat, E>

  // ---------------------------------------------------------------- reading

  predicate IsLargest(k: nat, keys: set<nat>) {
    k in keys && forall j :: j in keys ==> j <= k
  }

  lemma {:induction false} LargestExists(keys: set<nat>)
    requires keys != {}
    ensures exists k: nat :: IsLargest(k, keys)
    decreases |keys|
  {
    var k :| k in keys;
    if keys == {k} {
      assert IsLargest(k, keys);
    } else {
      LargestExists(keys - {k});
      var m: nat :| IsLargest(m, keys - {k});
      var best := if m < k then k else m;
      assert forall j :: j in keys ==> j == k || j in keys - {k};
      assert IsLargest(best, keys);
    }
  }

  /** `max(seq) + 1`, or 0 for no rows. */
  function NextSeq(keys: set<nat>): (n: nat)
    ensures forall k :: k in keys ==> k < n
    ensures n == 0 || n - 1 in keys
  {
    if keys == {} then 0
    else
      LargestExists(keys);
      var k: nat :| k in keys && IsLargest(k, keys);
      k + 1
  }

  /** `ORDER BY seq ASC` over the rows numbered `lo` to `hi - 1`. */
  function RowsBetween<E>(table: Table<E>, lo: nat, hi: nat): seq<Row<E>>
    decreases hi - lo
  {
    if lo >= hi then []
    else if lo in table then [Row(lo, table[lo])] + RowsBetween(table, lo + 1, hi)
    else RowsBetween(table, lo + 1, hi)
  }

  function ReadEvents<E>(table: Table<E>, from: nat): seq<Row<E>> {
    RowsBetween(table, from, NextSeq(table.Keys))
  }

  /** Numbered from 0 with nothing missing. */
  predicate Contiguous(keys: set<nat>) {
    forall k: nat :: k < NextSeq(keys) ==> k in keys
  }

  function Numbered<E>(from: nat, events: seq<E>): seq<Row<E>>
    decreases |events|
  {
    if events == [] then [] else [Row(from, events[0])] + Numbered(from + 1, events[1..])
  }

  /** `table` with `rows` inserted. */
  function WithRows<E>(table: Table<E>, rows: seq<Row<E>>): Table<E>
    decreases |rows|
  {
    if rows == [] then table
    else WithRows(table, rows[..|rows| - 1])[rows[|rows| - 1].number := rows[|rows| - 1].event]
  }

  /** The test the transaction makes on `SELECT seq ... ORDER BY seq`. */
  predicate PassesGapCheck<E>(rows: seq<Row<E>>) {
    forall i :: 0 <= i < |rows| ==> rows[i].number == i
  }

  lemma {:induction false} NumberedAt<E>(from: nat, events: seq<E>)
    ensures |Numbered(from, events)| == |events|
    ensures forall i :: 0 <= i < |events| ==> Numbered(from, events)[i] == Row(from + i, events[i])
    decreases |events|
  {
    if events != [] {
      NumberedAt(from + 1, events[1..]);
    }
  }

  lemma NumberedSnoc<E>(from: nat, events: seq<E>, e: E)
    ensures Numbered(from, events + [e]) == Numbered(from, events) + [Row(from + |events|, e)]
  {
    NumberedAt(from, events + [e]);
    NumberedAt(from, events);
  }

  lemma {:induction false} RowsStartAtOrAfter<E>(table: Table<E>, lo: nat, hi: nat)
    ensures var rows := RowsBetween(table, lo, hi);
            && (rows != [] ==> lo <= rows[0].number)
            && (lo < hi && hi - 1 in table ==> rows != [])
    decreases hi - lo
  {
    if lo < hi {
      RowsStartAtOrAfter(table, lo + 1, hi);
    }
  }

  /** A read of a contiguous table is the log from the cursor on. */
  lemma {:induction false} ContiguousReads<E>(table: Table<E>, lo: nat, hi: nat)
    requires forall k: nat :: k < hi ==> k in table
    ensures var rows := RowsBetween(table, lo, hi);
            && |rows| == (if lo < hi then hi - lo else 0)
            && forall i :: 0 <= i < |rows| ==> rows[i] == Row(lo + i, table[lo + i])
    decreases hi - lo
  {
    if lo < hi {
      ContiguousReads(table, lo + 1, hi);
    }
  }

  /** A read gives rows in its range as they are stored. */
  lemma {:induction false} ReadRow<E>(table: Table<E>, lo: nat, hi: nat, i: nat)
    requires i < |RowsBetween(table, lo, hi)|
    ensures var row := RowsBetween(table, lo, hi)[i];
            lo <= row.number < hi && row.number in table && row.event == table[row.number]
    decreases hi - lo
  {
    if lo in table {
      if i > 0 {
        ReadRow(table, lo + 1, hi, i - 1);
      }
    } else {
      ReadRow(table, lo + 1, hi, i);
    }
  }

  /** By rising number. */
  lemma {:induction false} ReadsRise<E>(table: Table<E>, lo: nat, hi: nat, i: nat, j: nat)
    requires i < j < |RowsBetween(table, lo, hi)|
    ensures RowsBetween(table, lo, hi)[i].number < RowsBetween(table, lo, hi)[j].number
    decreases hi - lo
  {
    if lo in table {
      if i > 0 {
        ReadsRise(table, lo + 1, hi, i - 1, j - 1);
      } else {
        ReadRow(table, lo + 1, hi, j - 1);
      }
    } else {
      ReadsRise(table, lo + 1, hi, i, j);
    }
  }

  /** And all of them. */
  lemma {:induction false} ReadsAll<E>(table: Table<E>, lo: nat, hi: nat, k: nat)
    requires lo <= k < hi && k in table
    ensures Row(k, table[k]) in RowsBetween(table, lo, hi)
    decreases hi - lo
  {
    if lo < k {
      ReadsAll(table, lo + 1, hi, k);
    }
  }

  /** `expected` is the lowest missing number with a stored one above it, and `found` the next of those. */
  ghost predicate IsFirstGap<E>(table: Table<E>, expected: nat, found: nat) {
    && expected < found && found in table
    && (forall k :: 0 <= k < expected ==> k in table)
    && (forall k :: expected <= k < found ==> k !in table)
  }

  lemma FirstMisnumberedIsTheGap<E>(table: Table<E>, i: nat)
    requires var rows := ReadEvents(table, 0);
             i < |rows| && rows[i].number != i && forall j :: 0 <= j < i ==> rows[j].number == j
    ensures IsFirstGap(table, i, ReadEvents(table, 0)[i].number)
  {
    var rows, n := ReadEvents(table, 0), NextSeq(table.Keys);
    ReadRow(table, 0, n, i);
    forall k | 0 <= k < i ensures k in table {
      ReadRow(table, 0, n, k);
      assert rows[k].number == k;
    }
    forall k: nat | k in table ensures k < i || rows[i].number <= k {
      assert k in table.Keys;
      ReadsAll(table, 0, n, k);
      var j :| 0 <= j < |rows| && rows[j] == Row(k, table[k]);
      assert j < i ==> rows[j].number == j;
      if j > i {
        ReadsRise(table, 0, n, i, j);
      }
    }
    if i > 0 {
      ReadsRise(table, 0, n, i - 1, i);
    }
    assert i > 0 ==> rows[i - 1].number == i - 1;
  }

  lemma {:induction false} AlignedRowsSkipNothing<E>(table: Table<E>, lo: nat, hi: nat, k: nat)
    requires lo < hi ==> hi - 1 in table
    requires var rows := RowsBetween(table, lo, hi);
             forall i :: 0 <= i < |rows| ==> rows[i].number == lo + i
    requires lo <= k < hi
    ensures k in table
    decreases hi - lo
  {
    var rest := RowsBetween(table, lo + 1, hi);
    RowsStartAtOrAfter(table, lo, hi);
    RowsStartAtOrAfter(table, lo + 1, hi);
    assert RowsBetween(table, lo, hi)[0].number == lo;
    assert lo in table;
    if lo < k {
      forall i | 0 <= i < |rest| ensures rest[i].number == lo + 1 + i {
        assert RowsBetween(table, lo, hi)[i + 1].number == lo + (i + 1);
      }
      AlignedRowsSkipNothing(table, lo + 1, hi, k);
    }
  }

  /** The transaction's gap check passes exactly on a contiguous table. */
  lemma GapCheckIsContiguity<E>(table: Table<E>)
    ensures PassesGapCheck(ReadEvents(table, 0)) <==> Contiguous(table.Keys)
  {
    var n := NextSeq(table.Keys);
    if PassesGapCheck(ReadEvents(table, 0)) {
      forall k: nat | k < n ensures k in table.Keys {
        AlignedRowsSkipNothing(table, 0, n, k);
      }
    } else if Contiguous(table.Keys) {
      ContiguousReads(table, 0, n);
    }
  }

  // ---------------------------------------------------------------- one append alone

  /** `after` is `table` with `events` under the `|events|` keys from `from` on. */
  ghost predicate Inserted<E>(table: Table<E>, from: nat, events: seq<E>, after: Table<E>) {
    && (forall i :: i in after <==> i in table || from <= i < from + |events|)
    && (forall i :: i in table ==> after[i] == table[i])
    && (forall i :: 0 <= i < |events| ==> from + i in after && after[from + i] == events[i])
  }

  lemma InsertedOneMore<E>(table: Table<E>, from: nat, events: seq<E>, middle: Table<E>, e: E)
    requires from == NextSeq(table.Keys) && Inserted(table, from, events, middle)
    ensures Inserted(table, from, events + [e], middle[from + |events| := e])
  {
  }

  lemma InsertedSnoc<E>(table: Table<E>, from: nat, events: seq<E>, e: E)
    requires from == NextSeq(table.Keys)
    requires Inserted(table, from, events, WithRows(table, Numbered(from, events)))
    ensures Inserted(table, from, events + [e], WithRows(table, Numbered(from, events + [e])))
  {
    NumberedSnoc(from, events, e);
    WithRowsSnoc(table, Numbered(from, events), Row(from + |events|, e));
    InsertedOneMore(table, from, events, WithRows(table, Numbered(from, events)), e);
  }

  lemma {:induction false} InsertedRows<E>(table: Table<E>, from: nat, events: seq<E>)
    requires from == NextSeq(table.Keys)
    ensures Inserted(table, from, events, WithRows(table, Numbered(from, events)))
    decreases |events|
  {
    if events == [] {
      assert WithRows(table, []) == table;
    } else {
      var init, e := events[..|events| - 1], events[|events| - 1];
      InsertedRows(table, from, init);
      InsertedSnoc(table, from, init, e);
      assert events == init + [e];
    }
  }

  lemma WithRowsSnoc<E>(table: Table<E>, rows: seq<Row<E>>, row: Row<E>)
    ensures WithRows(table, rows + [row]) == WithRows(table, rows)[row.number := row.event]
  {
    assert (rows + [row])[..|rows|] == rows;
  }

  lemma NextSeqIs(keys: set<nat>, n: nat)
    requires forall k :: k in keys ==> k < n
    requires n == 0 || n - 1 in keys
    ensures NextSeq(keys) == n
  {
  }

  /** A numbered batch keeps a contiguous table contiguous and cannot repair a broken one. */
  lemma AppendedIsContiguous<E>(table: Table<E>, events: seq<E>)
    ensures var n := NextSeq(table.Keys);
            var after := WithRows(table, Numbered(n, events));
            && NextSeq(after.Keys) == n + |events|
            && (Contiguous(after.Keys) <==> Contiguous(table.Keys))
            && (Contiguous(table.Keys) ==> ReadEvents(after, 0) == ReadEvents(table, 0) + Numbered(n, events))
  {
    var n := NextSeq(table.Keys);
    InsertedRows(table, n, events);
    var after := WithRows(table, Numbered(n, events));
    if events != [] {
      assert n + (|events| - 1) in after;
    }
    NextSeqIs(after.Keys, n + |events|);
    if Contiguous(table.Keys) {
      AppendedReads(table, n, events, after);
    } else {
      var k: nat :| k < n && k !in table.Keys;
      assert k !in after;
    }
  }

  lemma AppendedReads<E>(table: Table<E>, n: nat, events: seq<E>, after: Table<E>)
    requires n == NextSeq(table.Keys) && Contiguous(table.Keys) && Inserted(table, n, events, after)
    ensures RowsBetween(after, 0, n + |events|) == RowsBetween(table, 0, n) + Numbered(n, events)
  {
    forall k: nat | k < n + |events| ensures k in after {
      assert k < n ==> k in table.Keys;
    }
    ContiguousReads(table, 0, n);
    ContiguousReads(after, 0, n + |events|);
    NumberedAt(n, events);
  }

  /** A gap after an append was there before it. */
  lemma GapIsOld<E>(table: Table<E>, events: seq<E>, expected: nat, found: nat)
    requires IsFirstGap(WithRows(table, Numbered(NextSeq(table.Keys), events)), expected, found)
    ensures IsFirstGap(table, expected, found)
  {
    var n := NextSeq(table.Keys);
    InsertedRows(table, n, events);
    var after := WithRows(table, Numbered(n, events));
    assert found < n + |events| && expected !in after;
    assert n <= expected < n + |events| ==> expected in after;
    assert n - 1 in table.Keys && n - 1 in after;
    assert found <= n - 1;
  }

  datatype AppendError = SessionNotFound | GapDetected(expected: nat, found: nat)

  /** `append` run alone: lock, number, insert, check, commit or roll back. */
  class SessionEvents<E> {
    var sessionExists: bool
    var table: Table<E>

    constructor (sessionExists: bool, table: Table<E>)
      ensures this.sessionExists == sessionExists && this.table == table
    {
      this.sessionExists := sessionExists;
      this.table := table;
    }

    /** Succeeds exactly on a contiguous log, which it extends by the batch in order. */
    method Append(events: seq<E>) returns (r: Result<seq<Row<E>>, AppendError>)
      modifies this`table
      ensures r.Ok? <==> events == [] || (sessionExists && Contiguous(old(table).Keys))
      ensures r.Ok? ==> r.value == Numbered(NextSeq(old(table).Keys), events)
                        && table == WithRows(old(table), r.value)
      ensures r.Err? ==> table == old(table) && (r.error.SessionNotFound? <==> !sessionExists)
      ensures r.Err? && sessionExists ==> IsFirstGap(table, r.error.expected, r.error.found)
    {
      if events == [] {
        return Ok([]);
      }
      if !sessionExists {
        return Err(SessionNotFound);
      }
      var working := table;
      var first := NextSeq(working.Keys);
      var nextSeq := first;
      var persisted: seq<Row<E>> := [];
      for k := 0 to |events|
        invariant table == old(table)
        invariant nextSeq == first + k
        invariant persisted == Numbered(first, events[..k])
        invariant working == WithRows(table, persisted)
      {
        NumberedSnoc(first, events[..k], events[k]);
        assert events[..k + 1] == events[..k] + [events[k]];
        var row := Row(nextSeq, events[k]);
        WithRowsSnoc(table, persisted, row);
        nextSeq := nextSeq + 1;
        working := working[row.number := row.event];
        persisted := persisted + [row];
      }
      assert events[..|events|] == events;
      AppendedIsContiguous(table, events);
      GapCheckIsContiguity(working);
      var gap := FindGap(ReadEvents(working, 0));
      if gap.Some? {
        FirstMisnumberedIsTheGap(working, gap.value.expected);
        GapIsOld(table, events, gap.value.expected, gap.value.found);
        return Err(gap.value);
      }
      table := working;
      r := Ok(persisted);
    }

    /** `assertContiguous` of the repository: passes exactly on a contiguous log. */
    method CheckContiguous() returns (gap: Option<AppendError>)
      ensures gap.None? <==> Contiguous(table.Keys)
      ensures gap.Some? ==> gap.value.GapDetected? && IsFirstGap(table, gap.value.expected, gap.value.found)
    {
      GapCheckIsContiguity(table);
      gap := FindGap(ReadEvents(table, 0));
      if gap.Some? {
        FirstMisnumberedIsTheGap(table, gap.value.expected);
      }
    }
  }

  /** The loop both checks share: the first row that does not carry its own position. */
  method FindGap<E>(rows: seq<Row<E>>) returns (gap: Option<AppendError>)
    ensures gap.None? <==> PassesGapCheck(rows)
    ensures gap.Some? ==> gap.value.GapDetected? && gap.value.expected < |rows|
                          && gap.value.found == rows[gap.value.expected].number != gap.value.expected
                          && PassesGapCheck(rows[..gap.value.expected])
  {
    for i := 0 to |rows|
      invariant forall j :: 0 <= j < i ==> rows[j].number == j
    {
      if rows[i].number != i {
        return Some(GapDetected(i, rows[i].number));
      }
    }
    return None;
  }

  // ---------------------------------------------------------------- concurrent appends

  type TxnId = nat

  datatype Phase = Waiting | Locked | Inserting | Checked

  /** One append transaction: the events it has inserted, private until it commits, under the
      numbers from `first` on, and those it has still to insert. */
  datatype Txn<E> = Txn(inserted: seq<E>, todo: seq<E>, phase: Phase, first: nat)
  {
    /** The number the next insert takes. */
    function Next(): nat {
      first + |inserted|
    }

    /** Holds an uncommitted row with this sequence number. */
    predicate Owns(number: nat) {
      first <= number < Next()
    }

    /** The value `append` will return. */
    function Persisted(): seq<Row<E>> {
      Numbered(first, inserted)
    }
  }

  /** `locking` is false in a database that ignores `FOR UPDATE` on the session row. */
  datatype Db<E> = Db(locking: bool, lock: Option<TxnId>, table: Table<E>, txns: map<TxnId, Txn<E>>,
                      receipts: seq<seq<Row<E>>>, gapErrors: nat, conflictErrors: nat)
  {
    function With(t: TxnId, txn: Txn<E>): Db<E> {
      this.(txns := txns[t := txn])
    }

    /** Ends `t`, which gives its lock back. */
    function Without(t: TxnId): Db<E> {
      this.(txns := txns - {t}, lock := if lock == Some(t) then None else lock)
    }

    ghost predicate InPhase(t: TxnId, phase: Phase) {
      t in txns && txns[t].phase == phase
    }
  }

  datatype Action<E> =
    | Begin(t: TxnId, batch: seq<E>)
    | TakeLock(t: TxnId)
    | ReadMax(t: TxnId)
    | Insert(t: TxnId)
    | Check(t: TxnId)
    | Commit(t: TxnId)
    | Abort(t: TxnId)

  /** When a statement can run; one that would wait for a lock cannot. */
  ghost predicate Enabled<E>(s: Db<E>, a: Action<E>) {
    match a
    case Begin(t, batch) => t !in s.txns && batch != []
    case TakeLock(t) => s.InPhase(t, Waiting) && (s.locking ==> s.lock == None)
    case ReadMax(t) => s.InPhase(t, Locked)
    case Insert(t) =>
      && s.InPhase(t, Inserting) && s.txns[t].todo != []
      && forall u :: u in s.txns && u != t ==> !s.txns[u].Owns(s.txns[t].Next())
    case Check(t) => s.InPhase(t, Inserting) && s.txns[t].todo == []
    case Commit(t) => s.InPhase(t, Checked)
    case Abort(t) => t in s.txns
  }

  /** The rows `t` sees: committed ones and its own. */
  function Visible<E>(s: Db<E>, t: TxnId): Table<E>
    requires t in s.txns
  {
    WithRows(s.table, s.txns[t].Persisted())
  }

  function Apply<E>(s: Db<E>, a: Action<E>): Db<E>
    requires Enabled(s, a)
  {
    match a
    case Begin(t, batch) => s.With(t, Txn([], batch, Waiting, 0))
    case TakeLock(t) =>
      s.With(t, s.txns[t].(phase := Locked)).(lock := if s.locking then Some(t) else s.lock)
    case ReadMax(t) => s.With(t, s.txns[t].(phase := Inserting, first := NextSeq(s.table.Keys)))
    case Insert(t) =>
      // A committed row with the same key is a unique violation, which ends the transaction.
      var txn := s.txns[t];
      if txn.Next() in s.table then s.Without(t).(conflictErrors := s.conflictErrors + 1)
      else s.With(t, txn.(inserted := txn.inserted + [txn.todo[0]], todo := txn.todo[1..]))
    case Check(t) =>
      if PassesGapCheck(ReadEvents(Visible(s, t), 0)) then s.With(t, s.txns[t].(phase := Checked))
      else s.Without(t).(gapErrors := s.gapErrors + 1)
    case Commit(t) => s.Without(t).(table := Visible(s, t), receipts := s.receipts + [s.txns[t].Persisted()])
    case Abort(t) => s.Without(t)
  }

  ghost predicate Init<E>(s: Db<E>) {
    && s.lock == None && s.table == map[] && s.txns == map[] && s.receipts == []
    && s.gapErrors == 0 && s.conflictErrors == 0
  }

  /** The state after these statements, if each can run when its turn comes. */
  ghost function RunOf<E(!new)>(s: Db<E>, actions: seq<Action<E>>): Option<Db<E>>
    decreases |actions|
  {
    if actions == [] then Some(s)
    else if Enabled(s, actions[0]) then RunOf(Apply(s, actions[0]), actions[1..])
    else None
  }

  lemma FirstThen<E(!new)>(s: Db<E>, a: Action<E>, rest: seq<Action<E>>)
    requires Enabled(s, a)
    ensures RunOf(s, [a] + rest) == RunOf(Apply(s, a), rest)
  {
    assert ([a] + rest)[1..] == rest;
  }

  function Flatten<T>(parts: seq<seq<T>>): seq<T> {
    if parts == [] then [] else Flatten(parts[..|parts| - 1]) + parts[|parts| - 1]
  }

  /** What a running transaction is entitled to assume, with or without the lock. */
  ghost predicate TxnInv<E>(s: Db<E>, txn: Txn<E>) {
    && txn.first <= NextSeq(s.table.Keys)
    && (txn.inserted != [] ==> (txn.phase.Inserting? || txn.phase.Checked?) && txn.first == NextSeq(s.table.Keys))
    && (txn.phase.Checked? ==> txn.todo == [])
    && txn.inserted + txn.todo != []
  }

  ghost predicate Inv<E>(s: Db<E>) {
    && Contiguous(s.table.Keys)
    && (forall t :: t in s.txns ==> TxnInv(s, s.txns[t]))
    && (forall t, u :: t in s.txns && u in s.txns && s.txns[t].inserted != [] && s.txns[u].inserted != [] ==> t == u)
    && s.gapErrors == 0
    && Flatten(s.receipts) == ReadEvents(s.table, 0)
  }

  /** With the lock, one transaction at a time is past it, and its numbers are still fresh. */
  ghost predicate LockInv<E>(s: Db<E>) {
    && (s.lock.Some? ==> s.lock.value in s.txns && s.txns[s.lock.value].phase != Waiting)
    && (forall t :: t in s.txns && s.txns[t].phase != Waiting ==> s.lock == Some(t))
    && (forall t :: t in s.txns && s.txns[t].phase.Inserting? ==> s.txns[t].first == NextSeq(s.table.Keys))
    && s.conflictErrors == 0
  }

  lemma InitHolds<E>(s: Db<E>)
    requires Init(s)
    ensures Inv(s) && LockInv(s)
  {
  }

  lemma StepKeepsInv<E>(s: Db<E>, a: Action<E>)
    requires Inv(s) && Enabled(s, a)
    ensures Inv(Apply(s, a))
  {
    match a
    case Begin(t, batch) =>
    case TakeLock(t) =>
    case ReadMax(t) =>
    case Insert(t) =>
      InsertKeepsInv(s, t);
    case Check(t) =>
      CheckPasses(s, t);
    case Commit(t) =>
      CommitKeepsInv(s, t);
    case Abort(t) =>
  }

  lemma InsertKeepsInv<E>(s: Db<E>, t: TxnId)
    requires Inv(s) && Enabled(s, Insert(t))
    ensures Inv(Apply(s, Insert(t)))
  {
    var txn := s.txns[t];
    if txn.Next() !in s.table {
      assert txn.Next() >= NextSeq(s.table.Keys) by {
        assert txn.Next() < NextSeq(s.table.Keys) ==> txn.Next() in s.table.Keys;
      }
      if txn.inserted == [] {
        assert forall u :: u in s.txns && s.txns[u].inserted != [] ==> s.txns[u].Owns(txn.Next());
      }
    }
  }

  /** The in-transaction gap check never fires, even in a database without the lock. */
  lemma CheckPasses<E>(s: Db<E>, t: TxnId)
    requires Inv(s) && Enabled(s, Check(t))
    ensures PassesGapCheck(ReadEvents(Visible(s, t), 0))
    ensures Inv(Apply(s, Check(t)))
  {
    AppendedIsContiguous(s.table, s.txns[t].inserted);
    GapCheckIsContiguity(Visible(s, t));
  }

  /** A commit adds its whole batch, in order, right after the log as it is at that moment. */
  lemma CommitKeepsInv<E>(s: Db<E>, t: TxnId)
    requires Inv(s) && Enabled(s, Commit(t))
    ensures Inv(Apply(s, Commit(t)))
    ensures ReadEvents(Apply(s, Commit(t)).table, 0)
            == ReadEvents(s.table, 0) + Numbered(NextSeq(s.table.Keys), s.txns[t].inserted)
  {
    var s' := Apply(s, Commit(t));
    AppendedIsContiguous(s.table, s.txns[t].inserted);
    assert s'.receipts[..|s.receipts|] == s.receipts;
    assert forall u :: u in s'.txns ==> s.txns[u].inserted == [];
  }

  lemma StepKeepsLockInv<E>(s: Db<E>, a: Action<E>)
    requires Inv(s) && s.locking && LockInv(s) && Enabled(s, a)
    ensures LockInv(Apply(s, a))
  {
    if a.Check? {
      CheckPasses(s, a.t);
    }
  }

  // ---------------------------------------------------------------- whole runs

  ghost predicate Step<E(!new)>(s: Db<E>, s': Db<E>) {
    exists a: Action<E> :: Enabled(s, a) && s' == Apply(s, a)
  }

  /** Any number of transactions, interleaved and aborted anywhere. */
  ghost predicate Execution<E(!new)>(run: seq<Db<E>>) {
    && run != [] && Init(run[0])
    && forall i :: 0 <= i < |run| - 1 ==> Step(run[i], run[i + 1])
  }

  lemma {:induction false} ExecutionKeepsInv<E(!new)>(run: seq<Db<E>>, i: nat)
    requires Execution(run) && i < |run|
    ensures Inv(run[i]) && run[i].locking == run[0].locking
    ensures run[0].locking ==> LockInv(run[i])
    decreases i
  {
    if i > 0 {
      ExecutionKeepsInv(run, i - 1);
      assert Step(run[i - 1], run[i - 1 + 1]);
      var a: Action<E> :| Enabled(run[i - 1], a) && run[i] == Apply(run[i - 1], a);
      StepKeepsInv(run[i - 1], a);
      if run[0].locking {
        StepKeepsLockInv(run[i - 1], a);
      }
    }
  }

  /** Whatever is interleaved or aborted, the committed log is numbered 0 to n-1, the gap check
      has never fired, and with the lock no append has failed at all.  Only the last part needs
      the lock: without it an append can be refused, but never a gap or duplicate committed. */
  lemma LogIsAlwaysContiguous<E(!new)>(run: seq<Db<E>>, i: nat)
    requires Execution(run) && i < |run|
    ensures Contiguous(run[i].table.Keys)
    ensures run[i].gapErrors == 0
    ensures run[0].locking ==> run[i].conflictErrors == 0
  {
    ExecutionKeepsInv(run, i);
  }

  /** The ranges handed out to committed appends are consecutive and partition the log. */
  lemma ReceiptsPartitionTheLog<E(!new)>(run: seq<Db<E>>, i: nat)
    requires Execution(run) && i < |run|
    ensures Flatten(run[i].receipts) == ReadEvents(run[i].table, 0)
    ensures forall k, j :: 0 <= k < |run[i].receipts| && 0 <= j < |run[i].receipts[k]| ==>
              run[i].receipts[k][j].number == |Flatten(run[i].receipts[..k])| + j
  {
    ExecutionKeepsInv(run, i);
    var s := run[i];
    ContiguousReads(s.table, 0, NextSeq(s.table.Keys));
    forall k, j | 0 <= k < |s.receipts| && 0 <= j < |s.receipts[k]|
      ensures s.receipts[k][j].number == |Flatten(s.receipts[..k])| + j
    {
      FlattenAt(s.receipts, k, j);
    }
  }

  lemma {:induction false} FlattenAt<T>(parts: seq<seq<T>>, k: nat, j: nat)
    requires k < |parts| && j < |parts[k]|
    ensures |Flatten(parts[..k])| + j < |Flatten(parts)|
    ensures Flatten(parts)[|Flatten(parts[..k])| + j] == parts[k][j]
    decreases |parts|
  {
    var init := parts[..|parts| - 1];
    if k < |init| {
      FlattenAt(init, k, j);
      assert init[..k] == parts[..k];
    }
  }

  lemma StepExtendsLog<E>(s: Db<E>, a: Action<E>)
    requires Inv(s) && Enabled(s, a)
    ensures ReadEvents(s.table, 0) <= ReadEvents(Apply(s, a).table, 0)
  {
    if a.Commit? {
      CommitKeepsInv(s, a.t);
    }
  }

  /** Readers only ever see the log grow: an earlier read is a prefix of every later one. */
  lemma {:induction false} ReadersSeePrefixes<E(!new)>(run: seq<Db<E>>, i: nat, j: nat)
    requires Execution(run) && i <= j < |run|
    ensures ReadEvents(run[i].table, 0) <= ReadEvents(run[j].table, 0)
    decreases j
  {
    if i < j {
      ReadersSeePrefixes(run, i, j - 1);
      ExecutionKeepsInv(run, j - 1);
      assert Step(run[j - 1], run[j - 1 + 1]);
      var a: Action<E> :| Enabled(run[j - 1], a) && run[j] == Apply(run[j - 1], a);
      StepExtendsLog(run[j - 1], a);
    }
  }

  /** A run, taken one action further; `s` is where it now stands. */
  lemma Extend<E(!new)>(run: seq<Db<E>>, a: Action<E>) returns (longer: seq<Db<E>>, s: Db<E>)
    requires Execution(run) && Enabled(run[|run| - 1], a)
    ensures Execution(longer) && longer[0] == run[0]
    ensures s == longer[|longer| - 1] == Apply(run[|run| - 1], a)
  {
    s := Apply(run[|run| - 1], a);
    longer := run + [s];
    assert Step(run[|run| - 1], s);
    assert forall i :: 0 <= i < |run| ==> longer[i] == run[i];
  }

  lemma BothHaveReadTheSameMax<E(!new)>(e: E) returns (run: seq<Db<E>>, s: Db<E>)
    ensures Execution(run) && !run[0].locking && s == run[|run| - 1]
    ensures s.table == map[] && s.lock == None && s.conflictErrors == 0
    ensures s.txns == map[0 := Txn([], [e], Inserting, 0), 1 := Txn([], [e], Inserting, 0)]
  {
    var s0: Db<E> := Db(false, None, map[], map[], [], 0, 0);
    run := [s0];
    run, s := Extend(run, Begin(0, [e]));
    run, s := Extend(run, Begin(1, [e]));
    run, s := Extend(run, TakeLock(0));
    run, s := Extend(run, TakeLock(1));
    run, s := Extend(run, ReadMax(0));
    run, s := Extend(run, ReadMax(1));
  }

  lemma OneHasInserted<E(!new)>(e: E) returns (run: seq<Db<E>>, s: Db<E>)
    ensures Execution(run) && !run[0].locking && s == run[|run| - 1]
    ensures s.table == map[] && s.lock == None && s.conflictErrors == 0
    ensures s.txns == map[0 := Txn([e], [], Inserting, 0), 1 := Txn([], [e], Inserting, 0)]
  {
    run, s := BothHaveReadTheSameMax(e);
    assert [] + [e] == [e] && [e][1..] == [];
    run, s := Extend(run, Insert(0));
  }

  lemma OneHasChecked<E(!new)>(e: E) returns (run: seq<Db<E>>, s: Db<E>)
    ensures Execution(run) && !run[0].locking && s == run[|run| - 1]
    ensures s.table == map[] && s.lock == None && s.conflictErrors == 0
    ensures s.txns == map[0 := Txn([e], [], Checked, 0), 1 := Txn([], [e], Inserting, 0)]
  {
    run, s := OneHasInserted(e);
    ExecutionKeepsInv(run, |run| - 1);
    CheckPasses(s, 0);
    run, s := Extend(run, Check(0));
  }

  lemma OneHasCommitted<E(!new)>(e: E) returns (run: seq<Db<E>>, s: Db<E>)
    ensures Execution(run) && !run[0].locking && s == run[|run| - 1]
    ensures 0 in s.table && s.conflictErrors == 0
    ensures s.txns == map[1 := Txn([], [e], Inserting, 0)]
  {
    run, s := OneHasChecked(e);
    InsertedRows(s.table, 0, [e]);
    run, s := Extend(run, Commit(0));
  }

  /** An append that has begun keeps its batch until it ends, and begins with the one it is given. */
  lemma BatchIsKept<E(!new)>(s: Db<E>, a: Action<E>, t: TxnId)
    requires Enabled(s, a) && t in Apply(s, a).txns
    ensures var txn := Apply(s, a).txns[t];
            if a.Begin? && a.t == t then txn.inserted + txn.todo == a.batch
            else t in s.txns && txn.inserted + txn.todo == s.txns[t].inserted + s.txns[t].todo
  {
    if a.Insert? && a.t == t && s.txns[t].Next() !in s.table {
      var todo := s.txns[t].todo;
      assert todo == [todo[0]] + todo[1..];
    }
  }

  /** What it comes to when `t` commits the batch. */
  ghost predicate Committed<E>(s: Db<E>, t: TxnId, batch: seq<E>, done: Db<E>) {
    && done.table == WithRows(s.table, Numbered(NextSeq(s.table.Keys), batch))
    && done.receipts == s.receipts + [Numbered(NextSeq(s.table.Keys), batch)]
    && done.txns == s.txns - {t} && done.lock == None && done.gapErrors == 0 && done.conflictErrors == 0
  }

  /** How many statements an append that holds the lock has before it. */
  function StatementsLeft<E>(txn: Txn<E>): nat {
    |txn.todo| + match txn.phase
                 case Waiting => 4
                 case Locked => 3
                 case Inserting => 2
                 case Checked => 1
  }

  function NextStatement<E>(t: TxnId, txn: Txn<E>): Action<E> {
    match txn.phase
    case Waiting => TakeLock(t)
    case Locked => ReadMax(t)
    case Inserting => if txn.todo != [] then Insert(t) else Check(t)
    case Checked => Commit(t)
  }

  /** Another state of the same append, nearer to its end. */
  ghost predicate NearerToCommit<E>(s: Db<E>, t: TxnId, next: Db<E>)
    requires t in s.txns
  {
    && t in next.txns && next.txns[t].phase != Waiting && StatementsLeft(next.txns[t]) < StatementsLeft(s.txns[t])
    && next.txns[t].inserted + next.txns[t].todo == s.txns[t].inserted + s.txns[t].todo
    && next.txns - {t} == s.txns - {t} && next.table == s.table && next.receipts == s.receipts
    && next.locking == s.locking
  }

  lemma NextStatementRuns<E>(s: Db<E>, t: TxnId)
    requires Inv(s) && LockInv(s) && s.locking && t in s.txns && s.txns[t].phase != Waiting
    ensures Enabled(s, NextStatement(t, s.txns[t]))
  {
    assert forall u :: u in s.txns && u != t ==> s.txns[u].phase == Waiting && s.txns[u].inserted == [];
  }

  lemma NextStatementGoesOn<E(!new)>(s: Db<E>, t: TxnId)
    requires Inv(s) && LockInv(s) && s.locking && t in s.txns && s.txns[t].phase != Waiting
    requires Enabled(s, NextStatement(t, s.txns[t])) && !s.txns[t].phase.Checked?
    ensures NearerToCommit(s, t, Apply(s, NextStatement(t, s.txns[t])))
  {
    var txn, a := s.txns[t], NextStatement(t, s.txns[t]);
    if a.Check? {
      CheckPasses(s, t);
    }
    if a.Insert? {
      assert txn.Next() !in s.table.Keys;
    }
    BatchIsKept(s, a, t);
    assert Apply(s, a).txns - {t} == s.txns - {t};
  }

  lemma CommitCommits<E>(s: Db<E>, t: TxnId)
    requires Inv(s) && LockInv(s) && s.locking && t in s.txns && s.txns[t].phase.Checked?
    ensures Committed(s, t, s.txns[t].inserted + s.txns[t].todo, Apply(s, Commit(t)))
  {
    assert s.txns[t].inserted + s.txns[t].todo == s.txns[t].inserted;
  }

  /** An append that holds the lock can always go on to commit its whole batch, and then gives the lock back. */
  lemma {:induction false} LockedAppendCommits<E(!new)>(s: Db<E>, t: TxnId)
    returns (actions: seq<Action<E>>, done: Db<E>)
    requires Inv(s) && LockInv(s) && s.locking && t in s.txns && s.txns[t].phase != Waiting
    ensures RunOf(s, actions) == Some(done) && Committed(s, t, s.txns[t].inserted + s.txns[t].todo, done)
    decreases StatementsLeft(s.txns[t])
  {
    var a := NextStatement(t, s.txns[t]);
    NextStatementRuns(s, t);
    if s.txns[t].phase.Checked? {
      CommitCommits(s, t);
      actions, done := [], Apply(s, a);
    } else {
      NextStatementGoesOn(s, t);
      StepKeepsInv(s, a);
      StepKeepsLockInv(s, a);
      actions, done := LockedAppendCommits(Apply(s, a), t);
    }
    FirstThen(s, a, actions);
    actions := [a] + actions;
  }

  lemma LockTaken<E(!new)>(s: Db<E>, t: TxnId, batch: seq<E>) returns (locked: Db<E>)
    requires Inv(s) && LockInv(s) && s.locking && s.lock == None && t !in s.txns && batch != []
    ensures forall rest: seq<Action<E>> :: RunOf(s, [Begin(t, batch)] + ([TakeLock(t)] + rest)) == RunOf(locked, rest)
    ensures Inv(locked) && LockInv(locked) && locked.locking && t in locked.txns && locked.txns[t].phase != Waiting
    ensures locked.txns[t].inserted + locked.txns[t].todo == batch && locked.txns - {t} == s.txns
    ensures locked.table == s.table && locked.receipts == s.receipts
  {
    var begun := Apply(s, Begin(t, batch));
    locked := Apply(begun, TakeLock(t));
    StepKeepsInv(s, Begin(t, batch));
    StepKeepsLockInv(s, Begin(t, batch));
    StepKeepsInv(begun, TakeLock(t));
    StepKeepsLockInv(begun, TakeLock(t));
    forall rest: seq<Action<E>> ensures RunOf(s, [Begin(t, batch)] + ([TakeLock(t)] + rest)) == RunOf(locked, rest) {
      FirstThen(begun, TakeLock(t), rest);
      FirstThen(s, Begin(t, batch), [TakeLock(t)] + rest);
    }
    assert locked.txns - {t} == s.txns;
  }

  /** An append that nothing interferes with commits its batch after the log, numbered on from its last row. */
  lemma AppendAlone<E(!new)>(s: Db<E>, t: TxnId, batch: seq<E>) returns (actions: seq<Action<E>>, done: Db<E>)
    requires Inv(s) && LockInv(s) && s.locking && s.lock == None && t !in s.txns && batch != []
    ensures RunOf(s, actions) == Some(done) && Committed(s, t, batch, done)
  {
    var locked := LockTaken(s, t, batch);
    var rest;
    rest, done := LockedAppendCommits(locked, t);
    actions := [Begin(t, batch)] + ([TakeLock(t)] + rest);
    assert s.txns - {t} == s.txns;
  }

  /** The lock is needed for that last part: without it two appends can pick the same number. */
  lemma WithoutTheLockAppendsCanFail<E(!new)>(e: E)
    ensures exists run: seq<Db<E>> ::
              Execution(run) && !run[0].locking && run[|run| - 1].conflictErrors == 1
  {
    var run, s := OneHasCommitted(e);
    run, s := Extend(run, Insert(1));
  }
}

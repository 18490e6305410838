/** The whole path of an event: appended to the log (`EventLog`), polled and printed by the
    stream endpoint (apps/control-plane/src/sse.ts), cut anywhere by the network, parsed,
    rendered and resumed by the page (apps/control-plane/public/app.js). */
module Delivery {
  import opened JsNumbers
  import opened Wrappers
  import opened SseOutput
  import opened LineFraming
  import opened SseParsing
  import opened SseFormatting
  import Log = EventLog

  /** What a stored event needs to be streamed: its type, and its data as JSON text. */
  datatype Entry = Entry(eventType: string, data: string)

  type Row = Log.Row<Entry>

  function ToEvent(row: Row): Event {
    Event(row.number, row.event.eventType, row.event.data)
  }

  // ---------------------------------------------------------------- the page

  /** The page's side: the parser of the open stream, the resume cursor `maxSeq`, and what it shows. */
  datatype View = View(parser: Parser, maxSeq: int, rendered: seq<Dispatched>, gaps: seq<Gap>, duplicates: nat)

  /** `if (ev.seq !== null && ev.seq > state.maxSeq) state.maxSeq = ev.seq`, for each event. */
  function MaxSeq(before: int, events: seq<Dispatched>): int {
    if events == [] then before
    else
      var m := MaxSeq(before, events[..|events| - 1]);
      var number := events[|events| - 1].number;
      if number.Some? && number.value > m then number.value else m
  }

  function Receive(num: IdReader, v: View, chunk: string): View {
    var (parser, out) := Feed(Lines(num), v.parser, chunk);
    View(parser, MaxSeq(v.maxSeq, out.events), v.rendered + out.events, v.gaps + out.gaps,
         v.duplicates + out.duplicates)
  }

  /** The `seq` a new connection asks for; the parameter is left out, and 0, on a fresh start. */
  function Cursor(v: View): nat {
    if v.maxSeq >= 0 then v.maxSeq + 1 else 0
  }

  /** `sseLoop`: a new parser, told which number the resumed stream continues. */
  function Resume(v: View): View {
    v.(parser := Framed("", Fields(FRESH, if v.maxSeq >= 0 then v.maxSeq + 1 - 1 else -1)))
  }

  /** The page's mutable state, as `sseLoop` updates it. */
  class EventPage {
    var parser: SseParser
    var maxSeq: int
    var rendered: seq<Dispatched>
    var gaps: seq<Gap>
    var duplicates: nat

    function State(): View
      reads this, parser
    {
      View(parser.State(), maxSeq, rendered, gaps, duplicates)
    }

    constructor ()
      ensures fresh(parser)
      ensures State() == View(Framed("", Fields(FRESH, -1)), -1, [], [], 0)
    {
      parser := new SseParser();
      maxSeq, rendered, gaps, duplicates := -1, [], [], 0;
    }

    method StartLoop() returns (seqParameter: Option<nat>)
      modifies this
      ensures fresh(parser) && State() == Resume(old(State()))
      ensures (if seqParameter.Some? then seqParameter.value else 0) == Cursor(old(State()))
      ensures seqParameter == if old(maxSeq) >= 0 then Some(old(maxSeq) + 1) else None
      ensures parser.buffer == "" && parser.pending == Pending(None, None, [])
      ensures parser.lastSeq == (if old(maxSeq) >= 0 then old(maxSeq) else -1)
      ensures maxSeq == old(maxSeq) && rendered == old(rendered) && gaps == old(gaps) && duplicates == old(duplicates)
    {
      parser := new SseParser();
      seqParameter := if maxSeq >= 0 then Some(maxSeq + 1) else None;
      parser.lastSeq := if seqParameter.Some? then seqParameter.value - 1 else -1;
    }

    method OnChunk(num: IdReader, chunk: string)
      modifies this`maxSeq, this`rendered, this`gaps, this`duplicates, parser
      ensures State() == Receive(num, old(State()), chunk)
      ensures var out := Feed(Lines(num), old(State()).parser, chunk).1;
              && rendered == old(rendered) + out.events && gaps == old(gaps) + out.gaps
              && duplicates == old(duplicates) + out.duplicates
    {
      var out := parser.ParseSseChunks(num, chunk);
      gaps := gaps + out.gaps;
      duplicates := duplicates + out.duplicates;
      Render(out.events);
    }

    /** The loop over the events of one chunk. */
    method Render(events: seq<Dispatched>)
      modifies this`maxSeq, this`rendered
      ensures maxSeq == MaxSeq(old(maxSeq), events)
      ensures maxSeq >= old(maxSeq) && forall e :: e in events && e.number.Some? ==> e.number.value <= maxSeq
      ensures maxSeq == old(maxSeq) || exists e :: e in events && e.number == Some(maxSeq)
      ensures rendered == old(rendered) + events
    {
      for k := 0 to |events|
        invariant maxSeq == MaxSeq(old(maxSeq), events[..k])
        invariant maxSeq >= old(maxSeq)
        invariant forall j :: 0 <= j < k && events[j].number.Some? ==> events[j].number.value <= maxSeq
        invariant maxSeq == old(maxSeq) || exists j :: 0 <= j < k && events[j].number == Some(maxSeq)
        invariant rendered == old(rendered) + events[..k]
      {
        assert events[..k + 1][..k] == events[..k];
        if events[k].number.Some? && events[k].number.value > maxSeq {
          maxSeq := events[k].number.value;
        }
        rendered := rendered + [events[k]];
      }
      assert events[..|events|] == events;
    }
  }

  // ---------------------------------------------------------------- the stream endpoint

  function RowItems(rows: seq<Row>): seq<Item> {
    if rows == [] then [] else RowItems(rows[..|rows| - 1]) + [Item.Row(ToEvent(rows[|rows| - 1]))]
  }

  /** `items` is what the `seq`, `event` and `data` of these rows make, one item a row, in order. */
  ghost predicate ItemsOf(items: seq<Item>, rows: seq<Row>) {
    && |items| == |rows|
    && forall k :: 0 <= k < |rows| ==>
         items[k] == Item.Row(Event(rows[k].number, rows[k].event.eventType, rows[k].event.data))
  }

  lemma {:induction false} RowItemsAt(rows: seq<Row>)
    ensures ItemsOf(RowItems(rows), rows)
  {
    if rows != [] {
      RowItemsAt(rows[..|rows| - 1]);
    }
  }

  /** The endpoint's loop state; `written` is what it has put on the stream. */
  class StreamEndpoint {
    var lastSeq: int
    var written: seq<Item>

    constructor (cursor: nat)
      ensures lastSeq == cursor - 1 && written == []
    {
      lastSeq := cursor - 1;
      written := [];
    }

    /** `poll` on the rows its read returned: each is written, in order, and the cursor is at the last. */
    method Poll(rows: seq<Row>)
      modifies this
      ensures |written| == |old(written)| + |rows| && written[..|old(written)|] == old(written)
      ensures ItemsOf(written[|old(written)|..], rows)
      ensures written == old(written) + RowItems(rows)
      ensures lastSeq == if rows == [] then old(lastSeq) else rows[|rows| - 1].number
    {
      for k := 0 to |rows|
        invariant written == old(written) + RowItems(rows[..k])
        invariant lastSeq == if k == 0 then old(lastSeq) else rows[k - 1].number
      {
        assert rows[..k + 1][..k] == rows[..k];
        written := written + [Item.Row(ToEvent(rows[k]))];
        lastSeq := rows[k].number;
      }
      assert rows[..|rows|] == rows;
      RowItemsAt(rows);
      assert written[|old(written)|..] == RowItems(rows);
    }
  }

  // ---------------------------------------------------------------- the whole system

  /** One connection.  `next` is the endpoint's `lastSeq + 1`.  What the endpoint has written is
      `Text(written)`; the page has been handed the first `read` characters of it, and after a cut
      only the first `limit` can arrive. */
  datatype Conn = Conn(cursor: nat, next: nat, batch: seq<Row>, written: seq<Item>, read: nat, limit: Option<nat>)
  {
    predicate Arrives(n: nat) {
      && read <= n <= |Text(written)|
      && (limit.Some? ==> n <= limit.value)
    }
  }

  datatype System = System(db: Log.Db<Entry>, view: View, conn: Option<Conn>)

  datatype Action =
    | Database(action: Log.Action<Entry>)  // any statement of any append transaction
    | Connect                              // (re)connect from the resume cursor
    | Poll                                 // the endpoint reads the rows from its own cursor on
    | WriteRow                             // and prints the next of them
    | WriteComment(comment: Item)          // `: stream open` or `: ping`, between rows
    | CutOff(at: nat)                      // the stream ends: at most `at` characters arrive
    | Deliver(upTo: nat)                   // the network hands over a piece, split anywhere
    | Drop                                 // the page gives the connection up

  ghost predicate Enabled(s: System, a: Action) {
    match a
    case Database(action) => Log.Enabled(s.db, action)
    case Connect => s.conn.None?
    case Poll => s.conn.Some? && s.conn.value.limit.None? && s.conn.value.batch == []
    case WriteRow => s.conn.Some? && s.conn.value.limit.None? && s.conn.value.batch != []
    case WriteComment(comment) =>
      s.conn.Some? && s.conn.value.limit.None? && s.conn.value.batch == [] && !comment.Row?
    case CutOff(at) => s.conn.Some? && s.conn.value.limit.None? && s.conn.value.read <= at
    case Deliver(upTo) => s.conn.Some? && s.conn.value.Arrives(upTo)
    case Drop => s.conn.Some?
  }

  function Apply(num: IdReader, s: System, a: Action): System
    requires Enabled(s, a)
  {
    match a
    case Database(action) => s.(db := Log.Apply(s.db, action))
    case Connect =>
      var cursor := Cursor(s.view);
      s.(view := Resume(s.view), conn := Some(Conn(cursor, cursor, [], [], 0, None)))
    case Poll =>
      var c := s.conn.value;
      s.(conn := Some(c.(batch := Log.ReadEvents(s.db.table, c.next))))
    case WriteRow =>
      var c := s.conn.value;
      s.(conn := Some(c.(batch := c.batch[1..], next := c.batch[0].number + 1,
                         written := c.written + [Item.Row(ToEvent(c.batch[0]))])))
    case WriteComment(comment) =>
      s.(conn := Some(s.conn.value.(written := s.conn.value.written + [comment])))
    case CutOff(at) => s.(conn := Some(s.conn.value.(limit := Some(at))))
    case Deliver(upTo) =>
      var c := s.conn.value;
      s.(view := Receive(num, s.view, Text(c.written)[c.read..upTo]), conn := Some(c.(read := upTo)))
    case Drop => s.(conn := None)
  }

  /** The endpoint of a system, between polls, as the object it runs. */
  predicate RunsAs(c: Conn, lastSeq: int, written: seq<Item>) {
    c.next == lastSeq + 1 && c.written == written && c.batch == []
  }

  /** A poll's read, and `n` of its writes. */
  function PollAndWrite(num: IdReader, s: System, n: nat): (t: System)
    requires Enabled(s, Poll) && n <= |Log.ReadEvents(s.db.table, s.conn.value.next)|
    ensures t.db == s.db && t.view == s.view && t.conn.Some? && t.conn.value.limit.None?
    ensures t.conn.value.batch == Log.ReadEvents(s.db.table, s.conn.value.next)[n..]
  {
    if n == 0 then Apply(num, s, Poll) else Apply(num, PollAndWrite(num, s, n - 1), WriteRow)
  }

  lemma {:induction false} WritesSoFar(num: IdReader, s: System, n: nat)
    requires Enabled(s, Poll) && n <= |Log.ReadEvents(s.db.table, s.conn.value.next)|
    ensures var c, t := s.conn.value, PollAndWrite(num, s, n).conn.value;
            var rows := Log.ReadEvents(s.db.table, c.next);
            && t.written == c.written + RowItems(rows[..n]) && t.cursor == c.cursor && t.read == c.read
            && t.next == if n == 0 then c.next else rows[n - 1].number + 1
  {
    var rows := Log.ReadEvents(s.db.table, s.conn.value.next);
    if n > 0 {
      WritesSoFar(num, s, n - 1);
      assert rows[..n][..n - 1] == rows[..n - 1];
    } else {
      assert rows[..0] == [];
    }
  }

  /** One `poll` of the endpoint on what it reads is the poll of the system and all its writes: nothing
      else is written, and the cursor moves with them. */
  method PollRunsTheSystem(num: IdReader, endpoint: StreamEndpoint, s: System) returns (t: System)
    requires Enabled(s, Poll) && RunsAs(s.conn.value, endpoint.lastSeq, endpoint.written)
    modifies endpoint
    ensures t == PollAndWrite(num, s, |Log.ReadEvents(s.db.table, s.conn.value.next)|)
    ensures t.conn.Some? && RunsAs(t.conn.value, endpoint.lastSeq, endpoint.written)
  {
    var rows := Log.ReadEvents(s.db.table, endpoint.lastSeq + 1);
    endpoint.Poll(rows);
    WritesSoFar(num, s, |rows|);
    assert rows[..|rows|] == rows;
    t := PollAndWrite(num, s, |rows|);
  }

  ghost predicate Init(s: System) {
    Log.Init(s.db) && s.conn == None && s.view == View(Framed("", Fields(FRESH, -1)), -1, [], [], 0)
  }

  ghost predicate Step(num: IdReader, s: System, s': System) {
    exists a: Action :: Enabled(s, a) && s' == Apply(num, s, a)
  }

  ghost predicate Execution(num: IdReader, run: seq<System>) {
    && run != [] && Init(run[0])
    && forall i :: 0 <= i < |run| - 1 ==> Step(num, run[i], run[i + 1])
  }

  // ---------------------------------------------------------------- what should be shown

  type Table = Log.Table<Entry>

  function ToEvents(rows: seq<Row>): seq<Event> {
    if rows == [] then [] else ToEvents(rows[..|rows| - 1]) + [ToEvent(rows[|rows| - 1])]
  }

  /** The committed log as the events to stream. */
  function EventsOf(table: Table): seq<Event> {
    ToEvents(Log.ReadEvents(table, 0))
  }

  /** How the page displays `events`, each as stored. */
  function Display(events: seq<Event>): seq<Dispatched> {
    Arrivals(Exact, events)
  }

  /** Numbered from 0, every type and datum fit for the wire, and numbers exact in JavaScript. */
  ghost predicate Streamable(log: seq<Event>) {
    && |log| <= MAX_SAFE_INTEGER + 1
    && forall k :: 0 <= k < |log| ==>
         log[k].number == k && WireSafe(log[k].eventType) && JsonText(log[k].data)
  }

  ghost predicate EntriesStreamable(table: Table) {
    && Log.NextSeq(table.Keys) <= MAX_SAFE_INTEGER + 1
    && forall k :: k in table ==> WireSafe(table[k].eventType) && JsonText(table[k].data)
  }

  lemma {:induction false} ToEventsAt(rows: seq<Row>)
    ensures |ToEvents(rows)| == |rows|
    ensures forall k :: 0 <= k < |rows| ==> ToEvents(rows)[k] == ToEvent(rows[k])
  {
    if rows != [] {
      ToEventsAt(rows[..|rows| - 1]);
    }
  }

  /** Event `k` of a contiguous log is row `k`. */
  lemma EventsOfContiguous(table: Table)
    requires Log.Contiguous(table.Keys)
    ensures |EventsOf(table)| == Log.NextSeq(table.Keys)
    ensures forall k :: 0 <= k < |EventsOf(table)| ==>
              k in table && EventsOf(table)[k] == Event(k, table[k].eventType, table[k].data)
  {
    var rows := Log.ReadEvents(table, 0);
    Log.ContiguousReads(table, 0, Log.NextSeq(table.Keys));
    ToEventsAt(rows);
    forall k | 0 <= k < |rows|
      ensures k in table && EventsOf(table)[k] == Event(k, table[k].eventType, table[k].data)
    {
      assert rows[k] == Log.Row(0 + k, table[0 + k]);
    }
  }

  lemma EventsAreStreamable(table: Table)
    requires Log.Contiguous(table.Keys) && EntriesStreamable(table)
    ensures Streamable(EventsOf(table))
  {
    EventsOfContiguous(table);
  }

  lemma DisplaySlice(events: seq<Event>, lo: nat, hi: nat)
    requires lo <= hi <= |events|
    ensures |Display(events)| == |events|
    ensures Display(events[lo..hi]) == Display(events)[lo..hi]
  {
    ArrivalAt(Exact, events);
    ArrivalAt(Exact, events[lo..hi]);
  }

  lemma SplitOfSlice<T>(a: seq<T>, b: seq<T>, whole: seq<T>, lo: nat, hi: nat)
    requires lo <= hi <= |whole| && a + b == whole[lo..hi]
    ensures lo + |a| + |b| == hi
    ensures a == whole[lo..lo + |a|] && b == whole[lo + |a|..hi]
  {
    assert |a + b| == hi - lo;
    assert a == (a + b)[..|a|] && b == (a + b)[|a|..];
    assert whole[lo..hi][..|a|] == whole[lo..lo + |a|];
    assert whole[lo..hi][|a|..] == whole[lo + |a|..hi];
  }

  lemma JoinSlices<T>(whole: seq<T>, lo: nat, mid: nat, hi: nat)
    requires lo <= mid <= hi <= |whole|
    ensures whole[lo..mid] + whole[mid..hi] == whole[lo..hi]
  {
  }

  /** The page's cursor over consecutively numbered events ends at the last of them. */
  lemma {:induction false} MaxSeqOfRows(lo: nat, shown: seq<Dispatched>)
    requires forall i :: 0 <= i < |shown| ==> shown[i].number == Some(lo + i)
    ensures MaxSeq(lo - 1, shown) == lo + |shown| - 1
    decreases |shown|
  {
    if shown != [] {
      MaxSeqOfRows(lo, shown[..|shown| - 1]);
    }
  }

  lemma DisplayedNumbers(log: seq<Event>, lo: nat, hi: nat)
    requires Streamable(log) && lo <= hi <= |log|
    ensures |Display(log)| == |log|
    ensures forall i :: 0 <= i < hi - lo ==> Display(log)[lo..hi][i].number == Some(lo + i)
  {
    ArrivalAt(Exact, log);
    forall i | 0 <= i < hi - lo ensures Display(log)[lo..hi][i].number == Some(lo + i) {
      assert Display(log)[lo..hi][i] == Exact(log[lo + i]);
    }
  }

  // ---------------------------------------------------------------- a stream cut anywhere

  /** What the page has been handed so far: a fresh parser on a stream that starts at row
      `cursor`, run over the first `read` characters. */
  function Handed(num: IdReader, cursor: nat, text: string, read: nat): (Parser, Out)
    requires read <= |text|
  {
    Chars(Lines(num), Framed("", Fields(FRESH, cursor - 1)), text[..read])
  }

  lemma AllReadBack(num: IdReader, log: seq<Event>, cursor: nat, next: nat, items: seq<Item>)
    requires ReadsDecimals(num) && Streamable(log)
    requires cursor <= next <= |log| && Events(items) == log[cursor..next]
    ensures var out := Chars(Lines(num), Framed("", Fields(FRESH, cursor - 1)), Text(items)).1;
            out == Out(Display(log[cursor..next]), [], 0)
  {
    var events := log[cursor..next];
    assert forall k :: 0 <= k < |events| ==> events[k] == log[cursor + k];
    StreamReadsBack(num, Fields(FRESH, cursor - 1), items, cursor);
    ExactIffWireSafe(events);
  }

  /** However much of a stream has arrived, what it has given is the rows from its cursor on:
      a prefix, in order, with nothing reported missing or repeated. */
  lemma PieceOfStream(num: IdReader, log: seq<Event>, cursor: nat, next: nat, items: seq<Item>, read: nat)
    requires ReadsDecimals(num) && Streamable(log)
    requires cursor <= next <= |log| && Events(items) == log[cursor..next]
    requires read <= |Text(items)|
    ensures |Display(log)| == |log|
    ensures var out := Handed(num, cursor, Text(items), read).1;
            && cursor + |out.events| <= next
            && out == Out(Display(log)[cursor..cursor + |out.events|], [], 0)
            && (read == |Text(items)| ==> cursor + |out.events| == next)
  {
    var text, start := Text(items), Framed("", Fields(FRESH, cursor - 1));
    var (q, out) := Chars(Lines(num), start, text[..read]);
    var rest := Chars(Lines(num), q, text[read..]).1;
    CharsSplit(Lines(num), start, text[..read], text[read..]);
    TakeDrop(text, read);
    AllReadBack(num, log, cursor, next, items);
    DisplaySlice(log, cursor, next);
    PartsOfRows(out, rest, Display(log), cursor, next);
  }

  /** Output that shows a slice and reports nothing comes from parts that do the same. */
  lemma PartsOfRows(a: Out, b: Out, shown: seq<Dispatched>, lo: nat, hi: nat)
    requires lo <= hi <= |shown| && a.Then(b) == Out(shown[lo..hi], [], 0)
    ensures lo + |a.events| + |b.events| == hi
    ensures a == Out(shown[lo..lo + |a.events|], [], 0)
    ensures b == Out(shown[lo + |a.events|..hi], [], 0)
  {
    SplitOfSlice(a.events, b.events, shown, lo, hi);
    assert |a.gaps + b.gaps| == 0;
  }

  lemma TakeDrop(text: string, n: nat)
    requires n <= |text|
    ensures text[..n] + text[n..] == text
    ensures n == |text| ==> text[n..] == ""
  {
  }

  /** Handing over a piece is feeding it to the parser. */
  lemma HandOver(num: IdReader, cursor: nat, text: string, read: nat, upTo: nat)
    requires read <= upTo <= |text|
    ensures var (parser, before) := Handed(num, cursor, text, read);
            var (after, out) := Feed(Lines(num), parser, text[read..upTo]);
            Handed(num, cursor, text, upTo) == (after, before.Then(out))
  {
    var start := Framed("", Fields(FRESH, cursor - 1));
    assert text[..read] + text[read..upTo] == text[..upTo];
    CharsSplit(Lines(num), start, text[..read], text[read..upTo]);
    FeedIsChars(Lines(num), start, text[..read]);
    FeedHoldsNoNewline(Lines(num), start, text[..read]);
    FeedIsChars(Lines(num), Handed(num, cursor, text, read).0, text[read..upTo]);
  }

  // ---------------------------------------------------------------- the invariant

  ghost predicate ViewInv(log: seq<Event>, v: View) {
    && -1 <= v.maxSeq < |log| == |Display(log)|
    && v.rendered == Display(log)[..v.maxSeq + 1]
    && v.gaps == [] && v.duplicates == 0
  }

  /** The endpoint's side: it has written the rows from the cursor on, and holds the next ones. */
  ghost predicate ServerInv(log: seq<Event>, c: Conn) {
    && c.cursor <= c.next && c.next + |c.batch| <= |log|
    && Events(c.written) == log[c.cursor..c.next]
    && ToEvents(c.batch) == log[c.next..c.next + |c.batch|]
  }

  /** The page's side: its parser and cursor are what the characters handed over account for. */
  ghost predicate PageInv(num: IdReader, v: View, c: Conn) {
    && c.read <= |Text(c.written)|
    && v.parser == Handed(num, c.cursor, Text(c.written), c.read).0
    && v.maxSeq == c.cursor + |Handed(num, c.cursor, Text(c.written), c.read).1.events| - 1
  }

  ghost predicate Inv(num: IdReader, s: System) {
    && Log.Inv(s.db)
    && ViewInv(EventsOf(s.db.table), s.view)
    && (s.conn.Some? ==> ServerInv(EventsOf(s.db.table), s.conn.value) && PageInv(num, s.view, s.conn.value))
  }

  lemma InitHolds(num: IdReader, s: System)
    requires Init(s)
    ensures Inv(num, s)
  {
    Log.InitHolds(s.db);
    EventsOfContiguous(s.db.table);
  }

  lemma DatabaseKeepsInv(num: IdReader, s: System, a: Log.Action<Entry>)
    requires Inv(num, s) && Log.Enabled(s.db, a)
    ensures Inv(num, Apply(num, s, Database(a)))
  {
    var table' := Log.Apply(s.db, a).table;
    Log.StepKeepsInv(s.db, a);
    Log.StepExtendsLog(s.db, a);
    LongerLog(Log.ReadEvents(s.db.table, 0), Log.ReadEvents(table', 0));
    LongerDisplay(EventsOf(s.db.table), EventsOf(table'));
  }

  lemma LongerLog(rows: seq<Row>, more: seq<Row>)
    requires rows <= more
    ensures ToEvents(rows) <= ToEvents(more)
  {
    ToEventsAt(rows);
    ToEventsAt(more);
  }

  lemma LongerDisplay(log: seq<Event>, more: seq<Event>)
    requires log <= more
    ensures |Display(more)| == |more|
    ensures Display(log) == Display(more)[..|log|]
    ensures forall lo, hi :: 0 <= lo <= hi <= |log| ==> log[lo..hi] == more[lo..hi]
  {
    ArrivalAt(Exact, log);
    ArrivalAt(Exact, more);
    forall lo, hi | 0 <= lo <= hi <= |log| ensures log[lo..hi] == more[lo..hi] {
      assert more[..|log|] == log;
    }
  }

  lemma ConnectKeepsInv(num: IdReader, s: System)
    requires Inv(num, s) && Enabled(s, Connect)
    ensures Inv(num, Apply(num, s, Connect))
  {
    assert Text([])[..0] == "";
  }

  lemma PollKeepsInv(num: IdReader, s: System)
    requires Inv(num, s) && Enabled(s, Poll)
    ensures Inv(num, Apply(num, s, Poll))
  {
    PollReadsOn(s.db.table, s.conn.value.next);
  }

  lemma PollReadsOn(table: Table, next: nat)
    requires Log.Contiguous(table.Keys) && next <= |EventsOf(table)|
    ensures ToEvents(Log.ReadEvents(table, next)) == EventsOf(table)[next..]
    ensures |ToEvents(Log.ReadEvents(table, next))| == |Log.ReadEvents(table, next)|
  {
    var batch := Log.ReadEvents(table, next);
    EventsOfContiguous(table);
    Log.ContiguousReads(table, next, Log.NextSeq(table.Keys));
    ToEventsAt(batch);
    forall i | 0 <= i < |batch| ensures ToEvents(batch)[i] == EventsOf(table)[next..][i] {
      assert batch[i] == Log.Row(next + i, table[next + i]);
    }
  }

  lemma OneMoreWritten(written: seq<Item>, item: Item, read: nat)
    requires read <= |Text(written)|
    ensures Events(written + [item]) == WithItem(Events(written), item)
    ensures read <= |Text(written + [item])| && Text(written + [item])[..read] == Text(written)[..read]
  {
    assert (written + [item])[..|written|] == written;
    assert Text(written + [item]) == Text(written) + ItemText(item);
  }

  lemma NextOfSlices<T>(whole: seq<T>, lo: nat, mid: nat, hi: nat)
    requires lo <= mid < hi <= |whole|
    ensures whole[mid..hi][0] == whole[mid]
    ensures whole[mid..hi][1..] == whole[mid + 1..hi]
    ensures whole[lo..mid] + [whole[mid]] == whole[lo..mid + 1]
  {
  }

  lemma FirstOfBatch(rows: seq<Row>)
    requires rows != []
    ensures ToEvents(rows)[0] == ToEvent(rows[0]) && ToEvents(rows[1..]) == ToEvents(rows)[1..]
    ensures |ToEvents(rows)| == |rows|
  {
    ToEventsAt(rows);
    ToEventsAt(rows[1..]);
  }

  lemma WriteRowKeepsServerInv(log: seq<Event>, c: Conn)
    requires Streamable(log) && ServerInv(log, c) && c.batch != []
    ensures ServerInv(log, c.(batch := c.batch[1..], next := c.batch[0].number + 1,
                              written := c.written + [Item.Row(ToEvent(c.batch[0]))]))
  {
    var item := Item.Row(ToEvent(c.batch[0]));
    BatchContinues(log, c);
    assert Events(c.written + [item]) == log[c.cursor..c.next + 1] by {
      assert (c.written + [item])[..|c.written|] == c.written;
      NextOfSlices(log, c.cursor, c.next, c.next + |c.batch|);
    }
  }

  lemma BatchContinues(log: seq<Event>, c: Conn)
    requires Streamable(log) && ServerInv(log, c) && c.batch != []
    ensures c.batch[0].number == c.next && ToEvent(c.batch[0]) == log[c.next]
    ensures ToEvents(c.batch[1..]) == log[c.next + 1..c.next + |c.batch|]
  {
    FirstOfBatch(c.batch);
    NextOfSlices(log, c.cursor, c.next, c.next + |c.batch|);
  }

  lemma WriteKeepsPageInv(num: IdReader, v: View, c: Conn, item: Item, next: nat, batch: seq<Row>)
    requires PageInv(num, v, c)
    ensures PageInv(num, v, c.(written := c.written + [item], next := next, batch := batch))
  {
    OneMoreWritten(c.written, item, c.read);
  }

  lemma WriteRowKeepsInv(num: IdReader, s: System)
    requires EntriesStreamable(s.db.table)
    requires Inv(num, s) && Enabled(s, WriteRow)
    ensures Inv(num, Apply(num, s, WriteRow))
  {
    var c := s.conn.value;
    EventsAreStreamable(s.db.table);
    WriteRowKeepsServerInv(EventsOf(s.db.table), c);
    WriteKeepsPageInv(num, s.view, c, Item.Row(ToEvent(c.batch[0])), c.batch[0].number + 1, c.batch[1..]);
  }

  lemma WriteCommentKeepsInv(num: IdReader, s: System, comment: Item)
    requires Inv(num, s) && Enabled(s, WriteComment(comment))
    ensures Inv(num, Apply(num, s, WriteComment(comment)))
  {
    var c := s.conn.value;
    OneMoreWritten(c.written, comment, 0);
    WriteKeepsPageInv(num, s.view, c, comment, c.next, c.batch);
  }

  /** All that has been handed over is rows of the log from the cursor on. */
  lemma HandedRows(num: IdReader, log: seq<Event>, c: Conn, upTo: nat)
    requires ReadsDecimals(num) && Streamable(log) && ServerInv(log, c) && upTo <= |Text(c.written)|
    ensures var total := Handed(num, c.cursor, Text(c.written), upTo).1;
            && c.cursor + |total.events| <= |log| == |Display(log)|
            && total == Out(Display(log)[c.cursor..c.cursor + |total.events|], [], 0)
  {
    PieceOfStream(num, log, c.cursor, c.next, c.written, upTo);
  }

  /** What has been handed over before a piece and the piece's own output make up what has been after. */
  lemma PieceFollows(num: IdReader, v: View, c: Conn, upTo: nat)
    requires PageInv(num, v, c) && c.Arrives(upTo)
    ensures var before := Handed(num, c.cursor, Text(c.written), c.read).1;
            var out := Feed(Lines(num), v.parser, Text(c.written)[c.read..upTo]).1;
            before.Then(out) == Handed(num, c.cursor, Text(c.written), upTo).1
  {
    HandOver(num, c.cursor, Text(c.written), c.read, upTo);
  }

  lemma RowsAfter(before: Out, out: Out, total: Out, shown: seq<Dispatched>, cursor: nat)
    requires before.Then(out) == total && cursor + |total.events| <= |shown|
    requires total == Out(shown[cursor..cursor + |total.events|], [], 0)
    ensures var mid := cursor + |before.events|;
            mid + |out.events| <= |shown| && out == Out(shown[mid..mid + |out.events|], [], 0)
  {
    PartsOfRows(before, out, shown, cursor, cursor + |total.events|);
  }

  /** What one piece adds, the difference between two stages of the stream: the next rows of the
      log, and nothing else. */
  lemma PieceAdds(num: IdReader, log: seq<Event>, v: View, c: Conn, upTo: nat)
    requires ReadsDecimals(num) && Streamable(log) && ServerInv(log, c) && PageInv(num, v, c) && c.Arrives(upTo)
    ensures var out := Feed(Lines(num), v.parser, Text(c.written)[c.read..upTo]).1;
            && -1 <= v.maxSeq && v.maxSeq + 1 + |out.events| <= |log| == |Display(log)|
            && out == Out(Display(log)[v.maxSeq + 1..v.maxSeq + 1 + |out.events|], [], 0)
  {
    PieceFollows(num, v, c, upTo);
    HandedRows(num, log, c, upTo);
    RowsAfter(Handed(num, c.cursor, Text(c.written), c.read).1,
              Feed(Lines(num), v.parser, Text(c.written)[c.read..upTo]).1,
              Handed(num, c.cursor, Text(c.written), upTo).1, Display(log), c.cursor);
  }

  lemma PieceIsAccounted(num: IdReader, v: View, c: Conn, upTo: nat)
    requires PageInv(num, v, c) && c.Arrives(upTo)
    ensures var (parser, out) := Feed(Lines(num), v.parser, Text(c.written)[c.read..upTo]);
            forall w: View :: w.parser == parser && w.maxSeq == v.maxSeq + |out.events| ==>
              PageInv(num, w, c.(read := upTo))
  {
    HandOver(num, c.cursor, Text(c.written), c.read, upTo);
  }

  lemma RowsAdvanceView(log: seq<Event>, v: View, parser: Parser, out: Out)
    requires Streamable(log) && ViewInv(log, v)
    requires v.maxSeq + 1 + |out.events| <= |log|
    requires out == Out(Display(log)[v.maxSeq + 1..v.maxSeq + 1 + |out.events|], [], 0)
    ensures MaxSeq(v.maxSeq, out.events) == v.maxSeq + |out.events|
    ensures ViewInv(log, View(parser, v.maxSeq + |out.events|, v.rendered + out.events, v.gaps + out.gaps,
                              v.duplicates + out.duplicates))
  {
    var mid, end := v.maxSeq + 1, v.maxSeq + 1 + |out.events|;
    DisplayedNumbers(log, mid, end);
    MaxSeqOfRows(mid, out.events);
    JoinSlices(Display(log), 0, mid, end);
    assert v.gaps + out.gaps == [];
  }

  lemma DeliverKeepsPageInv(num: IdReader, log: seq<Event>, v: View, c: Conn, upTo: nat)
    requires ReadsDecimals(num) && Streamable(log)
    requires ViewInv(log, v) && ServerInv(log, c) && PageInv(num, v, c) && c.Arrives(upTo)
    ensures ViewInv(log, Receive(num, v, Text(c.written)[c.read..upTo]))
    ensures PageInv(num, Receive(num, v, Text(c.written)[c.read..upTo]), c.(read := upTo))
  {
    var (parser, out) := Feed(Lines(num), v.parser, Text(c.written)[c.read..upTo]);
    PieceAdds(num, log, v, c, upTo);
    RowsAdvanceView(log, v, parser, out);
    PieceIsAccounted(num, v, c, upTo);
  }

  lemma DeliverKeepsInv(num: IdReader, s: System, upTo: nat)
    requires ReadsDecimals(num) && EntriesStreamable(s.db.table)
    requires Inv(num, s) && Enabled(s, Deliver(upTo))
    ensures Inv(num, Apply(num, s, Deliver(upTo)))
  {
    var log, c, text := EventsOf(s.db.table), s.conn.value, Text(s.conn.value.written);
    EventsAreStreamable(s.db.table);
    DeliverKeepsPageInv(num, log, s.view, c, upTo);
    DeliveredInv(num, s, upTo, Receive(num, s.view, text[c.read..upTo]));
  }

  /** Handing over a piece changes only the page and how much of the text it has been handed. */
  lemma DeliveredInv(num: IdReader, s: System, upTo: nat, view: View)
    requires Inv(num, s) && Enabled(s, Deliver(upTo))
    requires ViewInv(EventsOf(s.db.table), view) && PageInv(num, view, s.conn.value.(read := upTo))
    ensures Inv(num, s.(view := view, conn := Some(s.conn.value.(read := upTo))))
  {
  }

  lemma EndingKeepsInv(num: IdReader, s: System, a: Action)
    requires Inv(num, s) && Enabled(s, a) && (a.CutOff? || a.Drop?)
    ensures Inv(num, Apply(num, s, a))
  {
  }

  lemma StepKeepsInv(num: IdReader, s: System, a: Action)
    requires ReadsDecimals(num) && EntriesStreamable(s.db.table)
    requires Inv(num, s) && Enabled(s, a)
    ensures Inv(num, Apply(num, s, a))
  {
    match a
    case Database(action) => DatabaseKeepsInv(num, s, action);
    case Connect => ConnectKeepsInv(num, s);
    case Poll => PollKeepsInv(num, s);
    case WriteRow => WriteRowKeepsInv(num, s);
    case WriteComment(comment) => WriteCommentKeepsInv(num, s, comment);
    case CutOff(at) => EndingKeepsInv(num, s, a);
    case Deliver(upTo) => DeliverKeepsInv(num, s, upTo);
    case Drop => EndingKeepsInv(num, s, a);
  }

  // ---------------------------------------------------------------- whole runs

  lemma LogInvStep(num: IdReader, s: System, a: Action)
    requires Log.Inv(s.db) && Enabled(s, a)
    ensures Log.Inv(Apply(num, s, a).db)
  {
    if a.Database? {
      Log.StepKeepsInv(s.db, a.action);
    }
  }

  /** The log half of the invariant needs nothing of the entries. */
  lemma {:induction false} LogInvAlways(num: IdReader, run: seq<System>, i: nat)
    requires Execution(num, run) && i < |run|
    ensures Log.Inv(run[i].db)
  {
    if i == 0 {
      Log.InitHolds(run[0].db);
    } else {
      LogInvAlways(num, run, i - 1);
      assert Step(num, run[i - 1], run[i - 1 + 1]);
      var a: Action :| Enabled(run[i - 1], a) && run[i] == Apply(num, run[i - 1], a);
      LogInvStep(num, run[i - 1], a);
    }
  }

  lemma ShorterIsStreamable(shorter: Table, longer: Table)
    requires Log.Contiguous(shorter.Keys) && Log.Contiguous(longer.Keys)
    requires Log.ReadEvents(shorter, 0) <= Log.ReadEvents(longer, 0)
    requires EntriesStreamable(longer)
    ensures EntriesStreamable(shorter)
  {
    Log.ContiguousReads(shorter, 0, Log.NextSeq(shorter.Keys));
    Log.ContiguousReads(longer, 0, Log.NextSeq(longer.Keys));
    forall k | k in shorter ensures WireSafe(shorter[k].eventType) && JsonText(shorter[k].data) {
      assert Log.ReadEvents(shorter, 0)[k] == Log.ReadEvents(longer, 0)[k];
    }
  }

  lemma StepGrowsLog(num: IdReader, s: System, a: Action)
    requires Log.Inv(s.db) && Enabled(s, a)
    ensures Log.ReadEvents(s.db.table, 0) <= Log.ReadEvents(Apply(num, s, a).db.table, 0)
  {
    if a.Database? {
      Log.StepExtendsLog(s.db, a.action);
    }
  }

  lemma StreamableOneBefore(num: IdReader, run: seq<System>, i: nat)
    requires Execution(num, run) && i + 1 < |run| && EntriesStreamable(run[i + 1].db.table)
    ensures EntriesStreamable(run[i].db.table)
  {
    var s, t := run[i], run[i + 1];
    LogInvAlways(num, run, i);
    LogInvAlways(num, run, i + 1);
    assert Step(num, s, t);
    var a: Action :| Enabled(s, a) && t == Apply(num, s, a);
    StepGrowsLog(num, s, a);
    ShorterIsStreamable(s.db.table, t.db.table);
  }

  lemma {:induction false} ExecutionKeepsInv(num: IdReader, run: seq<System>, i: nat)
    requires ReadsDecimals(num) && Execution(num, run) && i < |run|
    requires EntriesStreamable(run[i].db.table)
    ensures Inv(num, run[i])
    decreases i
  {
    if i == 0 {
      InitHolds(num, run[0]);
    } else {
      StreamableOneBefore(num, run, i - 1);
      ExecutionKeepsInv(num, run, i - 1);
      assert Step(num, run[i - 1], run[i - 1 + 1]);
      var a: Action :| Enabled(run[i - 1], a) && run[i] == Apply(num, run[i - 1], a);
      StepKeepsInv(num, run[i - 1], a);
    }
  }

  /** The page shows exactly the first `maxSeq + 1` rows of the log, in order, each once, and
      has never been told of a gap or dropped a duplicate: in every state of every run that
      interleaves appends, aborts, polls, comments, cuts at any character and reconnects, as long
      as the log then holds only entries that are fit for the wire. */
  lemma PageShowsExactPrefix(num: IdReader, run: seq<System>, i: nat)
    requires ReadsDecimals(num) && Execution(num, run) && i < |run|
    requires EntriesStreamable(run[i].db.table)
    ensures var v, table := run[i].view, run[i].db.table;
            && -1 <= v.maxSeq < Log.NextSeq(table.Keys)
            && |v.rendered| == v.maxSeq + 1
            && (forall k :: 0 <= k < |v.rendered| ==>
                 k in table && v.rendered[k] == Dispatched(Some(k), Some(table[k].eventType), table[k].data))
            && v.gaps == [] && v.duplicates == 0
  {
    ExecutionKeepsInv(num, run, i);
    ViewIsPrefix(run[i].db.table, run[i].view);
  }

  lemma ViewIsPrefix(table: Table, v: View)
    requires Log.Contiguous(table.Keys) && ViewInv(EventsOf(table), v)
    ensures v.maxSeq < Log.NextSeq(table.Keys) && |v.rendered| == v.maxSeq + 1
    ensures forall k :: 0 <= k < |v.rendered| ==>
              k in table && v.rendered[k] == Dispatched(Some(k), Some(table[k].eventType), table[k].data)
  {
    var log := EventsOf(table);
    EventsOfContiguous(table);
    ArrivalAt(Exact, log);
    forall k | 0 <= k < |v.rendered|
      ensures k in table && v.rendered[k] == Dispatched(Some(k), Some(table[k].eventType), table[k].data)
    {
      assert v.rendered[k] == Exact(log[k]);
    }
  }

  /** The endpoint has printed every row of the log and the page has been handed all of it. */
  ghost predicate CaughtUp(s: System) {
    s.conn.Some? && s.conn.value.next == Log.NextSeq(s.db.table.Keys)
    && s.conn.value.read == |Text(s.conn.value.written)|
  }

  /** Nothing is lost: a page that has caught up shows the whole log, whatever was cut before. */
  lemma CaughtUpPageShowsWholeLog(num: IdReader, run: seq<System>, i: nat)
    requires ReadsDecimals(num) && Execution(num, run) && i < |run|
    requires EntriesStreamable(run[i].db.table) && CaughtUp(run[i])
    ensures Log.Contiguous(run[i].db.table.Keys)
    ensures run[i].view.rendered == Display(EventsOf(run[i].db.table))
    ensures |run[i].view.rendered| == Log.NextSeq(run[i].db.table.Keys)
  {
    ExecutionKeepsInv(num, run, i);
    WholeLogShown(num, run[i]);
  }

  lemma ReconnectKeepsInv(num: IdReader, s: System) returns (t: System)
    requires Inv(num, s)
    ensures Inv(num, t) && t.db == s.db && Enabled(t, Poll) && t.conn.value.next == Cursor(s.view)
    ensures t == Apply(num, if s.conn.Some? then Apply(num, s, Drop) else s, Connect)
  {
    var dropped := if s.conn.Some? then Apply(num, s, Drop) else s;
    ConnectKeepsInv(num, dropped);
    t := Apply(num, dropped, Connect);
  }

  lemma {:induction false} WritesKeepInv(num: IdReader, s: System, n: nat)
    requires EntriesStreamable(s.db.table) && Inv(num, s) && Enabled(s, Poll)
    requires n <= |Log.ReadEvents(s.db.table, s.conn.value.next)|
    ensures Inv(num, PollAndWrite(num, s, n))
  {
    if n == 0 {
      PollKeepsInv(num, s);
    } else {
      WritesKeepInv(num, s, n - 1);
      WriteRowKeepsInv(num, PollAndWrite(num, s, n - 1));
    }
  }

  /** A page can always catch up: a new connection, one poll with its writes, and the arrival of what was
      written show the whole log. */
  lemma PageCanCatchUp(num: IdReader, s: System) returns (connected: System, t: System)
    requires ReadsDecimals(num) && Inv(num, s) && EntriesStreamable(s.db.table)
    ensures connected == Apply(num, if s.conn.Some? then Apply(num, s, Drop) else s, Connect)
    ensures Enabled(connected, Poll)
    ensures var polled := PollAndWrite(num, connected,
                                       |Log.ReadEvents(connected.db.table, connected.conn.value.next)|);
            var end := |Text(polled.conn.value.written)|;
            Enabled(polled, Deliver(end)) && t == Apply(num, polled, Deliver(end))
    ensures t.db == s.db && CaughtUp(t) && t.view.rendered == Display(EventsOf(s.db.table))
  {
    connected := ReconnectKeepsInv(num, s);
    var next := connected.conn.value.next;
    var rows := Log.ReadEvents(s.db.table, next);
    var polled := PollAndWrite(num, connected, |rows|);
    WritesKeepInv(num, connected, |rows|);
    WritesSoFar(num, connected, |rows|);
    EventsOfContiguous(s.db.table);
    Log.ContiguousReads(s.db.table, next, Log.NextSeq(s.db.table.Keys));
    var end := |Text(polled.conn.value.written)|;
    DeliverKeepsInv(num, polled, end);
    t := Apply(num, polled, Deliver(end));
    WholeLogShown(num, t);
  }

  lemma WholeLogShown(num: IdReader, s: System)
    requires ReadsDecimals(num) && Inv(num, s) && EntriesStreamable(s.db.table) && CaughtUp(s)
    ensures s.view.rendered == Display(EventsOf(s.db.table))
    ensures |s.view.rendered| == Log.NextSeq(s.db.table.Keys)
  {
    var c := s.conn.value;
    EventsOfContiguous(s.db.table);
    EventsAreStreamable(s.db.table);
    PieceOfStream(num, EventsOf(s.db.table), c.cursor, c.next, c.written, c.read);
  }
}

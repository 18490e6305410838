/** The Server-Sent Events text that apps/control-plane/src/sse.ts writes, and the proof
    that the browser's parser reads it back.  The wire format is the subset of sections
    9.2.5 and 9.2.6 of the WHATWG HTML standard that the two files use. */
module SseFormatting {
  import opened JsNumbers
  import opened Wrappers
  import opened SseOutput
  import opened LineFraming
  import opened StringSearch
  import opened SseParsing

  /** A row as the stream sends it; `data` is its JSON text. */
  datatype Event = Event(number: nat, eventType: string, data: string)

  /** JSON text escapes line ends, so it holds no newline and cannot end in a carriage return. */
  predicate JsonText(data: string) {
    NoNewline(data) && StripCr(data) == data
  }

  function FormatSseEvent(e: Event): string {
    "id: " + Decimal(e.number) + "\n" + ("event: " + e.eventType + "\n" + ("data: " + e.data + "\n" + "\n"))
  }

  /** The three lines and the blank one, as they go over the wire. */
  lemma WireText(e: Event)
    ensures FormatSseEvent(e)
         == "id: " + Decimal(e.number) + "\nevent: " + e.eventType + "\ndata: " + e.data + "\n\n"
  {
    var rest := "data: " + e.data + "\n" + "\n";
    assert rest == "data: " + e.data + "\n\n";
    assert "\n" + ("event: " + e.eventType + "\n" + rest) == "\nevent: " + e.eventType + ("\n" + rest);
    assert "\n" + rest == "\ndata: " + e.data + "\n\n";
    Regroup("id: " + Decimal(e.number), "\nevent: " + e.eventType, "\ndata: " + e.data, "\n\n");
  }

  lemma Regroup(a: string, b: string, c: string, d: string)
    ensures a + (b + (c + d)) == a + b + c + d
  {
  }

  datatype Item = Row(event: Event) | StreamOpen | Ping

  function ItemText(item: Item): string {
    match item
    case Row(e) => FormatSseEvent(e)
    case StreamOpen => ": stream open" + "\n" + "\n"
    case Ping => ": ping" + "\n" + "\n"
  }

  function Text(items: seq<Item>): string {
    if items == [] then "" else Text(items[..|items| - 1]) + ItemText(items[|items| - 1])
  }

  function Events(items: seq<Item>): seq<Event> {
    if items == [] then [] else WithItem(Events(items[..|items| - 1]), items[|items| - 1])
  }

  function WithItem(events: seq<Event>, item: Item): seq<Event> {
    if item.Row? then events + [item.event] else events
  }

  ghost predicate Numbered(events: seq<Event>, from: nat) {
    forall k :: 0 <= k < |events| ==> events[k].number == from + k
  }

  /** A type the wire format can carry. */
  predicate WireSafe(eventType: string) {
    NoNewline(eventType) && StripCr(eventType) == eventType
  }

  /** The dispatched form of a row, and what a type ending in a carriage return becomes. */
  function Exact(e: Event): Dispatched {
    Dispatched(Some(e.number), Some(e.eventType), e.data)
  }

  function OnArrival(e: Event): Dispatched {
    Dispatched(Some(e.number), Some(StripCr(e.eventType)), e.data)
  }

  function Arrivals(arrive: Event -> Dispatched, events: seq<Event>): seq<Dispatched> {
    if events == [] then []
    else Arrivals(arrive, events[..|events| - 1]) + [arrive(events[|events| - 1])]
  }

  lemma {:induction false} ArrivalAt(arrive: Event -> Dispatched, events: seq<Event>)
    ensures |Arrivals(arrive, events)| == |events|
    ensures forall k :: 0 <= k < |events| ==> Arrivals(arrive, events)[k] == arrive(events[k])
  {
    if events != [] {
      ArrivalAt(arrive, events[..|events| - 1]);
    }
  }

  // ---------------------------------------------------------------- decimals

  lemma {:induction false} DecimalIsPlain(n: nat)
    ensures Decimal(n) != "" && NoNewline(Decimal(n)) && StripCr(Decimal(n)) == Decimal(n)
  {
    if n >= 10 {
      DecimalIsPlain(n / 10);
    }
  }

  // ---------------------------------------------------------------- one row

  lemma FieldParts(name: string, value: string)
    requires ':' !in name
    ensures var line := name + ": " + value;
            && Find(line, ':') == |name|
            && line[..|name|] == name
            && StripSpace(line[|name| + 1..]) == value
  {
    var line := name + ": " + value;
    assert line[|name|] == ':';
    assert line[..|name|] == name;
    FindFirst(line, ':', |name|);
    assert line[|name| + 1..] == " " + value;
    assert (" " + value)[1..] == value;
  }

  lemma FieldCr(name: string, value: string)
    ensures StripCr(name + ": " + value) == name + ": " + StripCr(value)
  {
    var line := name + ": " + value;
    if value == "" {
      assert line[|line| - 1] == ' ';
    } else {
      assert line[|line| - 1] == value[|value| - 1];
      assert line[..|line| - 1] == name + ": " + value[..|value| - 1];
    }
  }

  function WithField(pending: Pending, name: string, value: string): Pending {
    if name == "id" then pending.(id := Some(value))
    else if name == "event" then pending.(event := Some(value))
    else pending.(dataLines := pending.dataLines + [value])
  }

  lemma FieldLine(num: IdReader, p: Fields, name: string, value: string)
    requires name == "id" || name == "event" || name == "data"
    ensures Line(num, p, name + ": " + value)
            == (p.(pending := WithField(p.pending, name, StripCr(value))), NOTHING)
  {
    FieldCr(name, value);
    FieldParts(name, StripCr(value));
    assert (name + ": " + StripCr(value))[0] == name[0];
  }

  // ---------------------------------------------------------------- one item

  function ItemLines(item: Item): seq<string> {
    match item
    case Row(e) => FieldLines(Decimal(e.number), e.eventType, e.data)
    case StreamOpen => [": stream open", ""]
    case Ping => [": ping", ""]
  }

  lemma TerminatedCons(line: string, lines: seq<string>)
    ensures Terminated([line] + lines) == line + "\n" + Terminated(lines)
  {
    assert ([line] + lines)[1..] == lines;
  }

  lemma TerminatedTwo(a: string)
    ensures Terminated([a, ""]) == a + "\n" + "\n"
  {
    TerminatedCons("", []);
    TerminatedCons(a, [""]);
    assert [""] + [] == [""] && [a] + [""] == [a, ""];
  }

  lemma TerminatedFour(a: string, b: string, c: string)
    ensures Terminated([a, b, c, ""]) == a + "\n" + (b + "\n" + (c + "\n" + "\n"))
  {
    TerminatedTwo(c);
    TerminatedCons(b, [c, ""]);
    TerminatedCons(a, [b, c, ""]);
    assert [b] + [c, ""] == [b, c, ""] && [a] + [b, c, ""] == [a, b, c, ""];
  }

  lemma ItemTextIsLines(item: Item)
    ensures ItemText(item) == Terminated(ItemLines(item))
  {
    match item
    case Row(e) => TerminatedFour("id: " + Decimal(e.number), "event: " + e.eventType, "data: " + e.data);
    case StreamOpen => TerminatedTwo(": stream open");
    case Ping => TerminatedTwo(": ping");
  }

  function FieldLines(id: string, eventType: string, data: string): seq<string> {
    ["id: " + id, "event: " + eventType, "data: " + data, ""]
  }

  lemma FieldsRun(num: IdReader, p: Fields, id: string, eventType: string, data: string)
    requires p.pending == FRESH && StripCr(id) == id && StripCr(data) == data
    ensures Run(Lines(num), p, FieldLines(id, eventType, data))
            == Dispatch(num, p.(pending := Pending(Some(id), Some(StripCr(eventType)), [data])))
  {
    var lines := FieldLines(id, eventType, data);
    var p1 := p.(pending := Pending(Some(id), None, []));
    var p2 := p.(pending := Pending(Some(id), Some(StripCr(eventType)), []));
    var p3 := p.(pending := Pending(Some(id), Some(StripCr(eventType)), [data]));
    SpellFields();
    FieldLine(num, p, "id", id);
    FieldLine(num, p1, "event", eventType);
    FieldLine(num, p2, "data", data);
    assert [] + [data] == [data];
    RunFour(Lines(num), p, lines[0], p1, lines[1], p2, lines[2], p3, "");
  }

  lemma SpellFields()
    ensures "id: " == "id" + ": " && "event: " == "event" + ": " && "data: " == "data" + ": "
  {
  }

  lemma RowRuns(num: IdReader, p: Fields, e: Event, id: string)
    requires id != "" && num(id) == Some(e.number) && StripCr(id) == id
    requires p.pending == FRESH
    requires p.lastSeq == -1 || e.number == p.lastSeq + 1
    requires StripCr(e.data) == e.data
    ensures Run(Lines(num), p, FieldLines(id, e.eventType, e.data))
            == (p.(lastSeq := e.number), Out([OnArrival(e)], [], 0))
  {
    FieldsRun(num, p, id, e.eventType, e.data);
    assert ReadId(num, Some(id)) == Some(e.number);
  }

  lemma CommentRuns(num: IdReader, p: Fields, comment: string)
    requires p.pending == FRESH
    requires comment != "" && comment[0] == ':' && StripCr(comment) == comment
    ensures Run(Lines(num), p, [comment, ""]) == (p, NOTHING)
  {
    assert [comment, ""] == [comment] + [""];
    RunSilently(Lines(num), p, comment, p, [""]);
    RunOne(Lines(num), p, "");
  }

  /** A row the parser `p` takes as the next one. */
  ghost predicate Follows(p: Fields, item: Item) {
    item.Row? ==>
      && (p.lastSeq == -1 || item.event.number == p.lastSeq + 1)
      && item.event.number <= MAX_SAFE_INTEGER
      && NoNewline(item.event.eventType) && JsonText(item.event.data)
  }

  function AfterItem(p: Fields, item: Item): (Fields, Out) {
    if item.Row? then (p.(lastSeq := item.event.number), Out([OnArrival(item.event)], [], 0))
    else (p, NOTHING)
  }

  lemma ItemRuns(num: IdReader, p: Fields, item: Item)
    requires ReadsDecimals(num) && p.pending == FRESH && Follows(p, item)
    ensures Run(Lines(num), p, ItemLines(item)) == AfterItem(p, item)
  {
    if item.Row? {
      DecimalIsPlain(item.event.number);
      RowRuns(num, p, item.event, Decimal(item.event.number));
    } else {
      CommentRuns(num, p, ItemLines(item)[0]);
    }
  }

  lemma ItemLinesArePlain(item: Item)
    requires item.Row? ==> NoNewline(item.event.eventType) && NoNewline(item.event.data)
    ensures forall line :: line in ItemLines(item) ==> NoNewline(line)
  {
    if item.Row? {
      DecimalIsPlain(item.event.number);
    }
  }

  lemma ItemReadsBack(num: IdReader, p: Fields, item: Item)
    requires ReadsDecimals(num) && p.pending == FRESH && Follows(p, item)
    ensures var (q, out) := AfterItem(p, item);
            Chars(Lines(num), Framed("", p), ItemText(item)) == (Framed("", q), out)
  {
    ItemTextIsLines(item);
    ItemRuns(num, p, item);
    ItemLinesArePlain(item);
    TerminatedRuns(Lines(num), p, ItemLines(item));
  }

  // ---------------------------------------------------------------- a whole stream

  ghost predicate Printable(events: seq<Event>) {
    forall k :: 0 <= k < |events| ==> NoNewline(events[k].eventType) && JsonText(events[k].data)
  }

  /** Where the parser ends after `events` numbered from `from`. */
  function EndSeq(before: int, from: nat, events: seq<Event>): int {
    if events == [] then before else from + |events| - 1
  }

  /** What the stream should give: one event per row, in order, nothing reported missing or
      repeated, and only a trailing carriage return of a type is lost. */
  function AfterStream(p: Fields, from: nat, events: seq<Event>): (Fields, Out) {
    (p.(lastSeq := EndSeq(p.lastSeq, from, events)), Out(Arrivals(OnArrival, events), [], 0))
  }

  /** Reading back a stream of consecutively numbered rows and any comments between them. */
  lemma {:induction false} StreamReadsBack(num: IdReader, p: Fields, items: seq<Item>, from: nat)
    requires ReadsDecimals(num)
    requires p.pending == FRESH
    requires p.lastSeq == -1 || p.lastSeq + 1 == from
    requires Numbered(Events(items), from) && from + |Events(items)| <= MAX_SAFE_INTEGER + 1
    requires Printable(Events(items))
    ensures var (q, out) := AfterStream(p, from, Events(items));
            Chars(Lines(num), Framed("", p), Text(items)) == (Framed("", q), out)
    decreases |items|
  {
    if items != [] {
      var head, last := items[..|items| - 1], items[|items| - 1];
      LastEventFollows(p, from, Events(head), last);
      StreamReadsBack(num, p, head, from);
      CharsSplit(Lines(num), Framed("", p), Text(head), ItemText(last));
      ItemReadsBack(num, AfterStream(p, from, Events(head)).0, last);
      OneMoreItem(p, from, Events(head), last);
    }
  }

  lemma OneMoreItem(p: Fields, from: nat, events: seq<Event>, item: Item)
    requires Numbered(WithItem(events, item), from)
    ensures var (q, before) := AfterStream(p, from, events);
            var (r, more) := AfterItem(q, item);
            AfterStream(p, from, WithItem(events, item)) == (r, before.Then(more))
  {
    if item.Row? {
      ArrivalsSnoc(OnArrival, events, item.event);
      assert item.event == WithItem(events, item)[|events|];
    } else {
      ThenNothing(Out(Arrivals(OnArrival, events), [], 0));
    }
  }

  lemma ArrivalsSnoc(arrive: Event -> Dispatched, events: seq<Event>, e: Event)
    ensures Out(Arrivals(arrive, events + [e]), [], 0)
            == Out(Arrivals(arrive, events), [], 0).Then(Out([arrive(e)], [], 0))
  {
    assert (events + [e])[..|events|] == events;
    assert forall gaps: seq<Gap> :: gaps == [] ==> gaps + gaps == gaps;
  }

  lemma LastEventFollows(p: Fields, from: nat, events: seq<Event>, item: Item)
    requires p.lastSeq == -1 || p.lastSeq + 1 == from
    requires Numbered(WithItem(events, item), from) && Printable(WithItem(events, item))
    requires from + |WithItem(events, item)| <= MAX_SAFE_INTEGER + 1
    ensures Numbered(events, from) && Printable(events)
    ensures from + |events| <= MAX_SAFE_INTEGER + 1
    ensures Follows(AfterStream(p, from, events).0, item)
  {
    var all := WithItem(events, item);
    assert forall k :: 0 <= k < |events| ==> events[k] == all[k];
    assert item.Row? ==> all[|events|] == item.event;
  }

  // ---------------------------------------------------------------- exactly when it is the identity

  predicate TypeClean(p: Fields) {
    p.pending.event.Some? ==> NoNewline(p.pending.event.value)
  }

  predicate TypesClean(events: seq<Dispatched>) {
    forall e :: e in events && e.eventType.Some? ==> NoNewline(e.eventType.value)
  }

  lemma LineKeepsTypesClean(num: IdReader, p: Fields, raw: string)
    requires TypeClean(p) && NoNewline(raw)
    ensures TypeClean(Line(num, p, raw).0) && TypesClean(Line(num, p, raw).1.events)
  {
    var line := StripCr(raw);
    assert NoNewline(line);
    var colon := Find(line, ':');
    if colon < |line| {
      var value := line[colon + 1..];
      assert NoNewline(value) && NoNewline(StripSpace(value));
    }
  }

  lemma {:induction false} LinesKeepTypesClean(num: IdReader, p: Fields, lines: seq<string>)
    requires TypeClean(p) && forall line :: line in lines ==> NoNewline(line)
    ensures TypesClean(Run(Lines(num), p, lines).1.events)
    decreases |lines|
  {
    if lines != [] {
      LineKeepsTypesClean(num, p, lines[0]);
      LinesKeepTypesClean(num, Line(num, p, lines[0]).0, lines[1..]);
    }
  }

  /** Formatting then parsing is the identity exactly when every type is free of newlines and
      of a trailing carriage return. */
  lemma RoundTripIffWireSafe(num: IdReader, p: Fields, items: seq<Item>, from: nat)
    requires ReadsDecimals(num)
    requires p.pending == FRESH
    requires p.lastSeq == -1 || p.lastSeq + 1 == from
    requires Numbered(Events(items), from) && from + |Events(items)| <= MAX_SAFE_INTEGER + 1
    requires forall e :: e in Events(items) ==> JsonText(e.data)
    ensures Feed(Lines(num), Framed("", p), Text(items)).1 == Out(Arrivals(Exact, Events(items)), [], 0)
            <==> forall e :: e in Events(items) ==> WireSafe(e.eventType)
  {
    var events := Events(items);
    var text := Text(items);
    if Printable(events) {
      FeedIsChars(Lines(num), Framed("", p), text);
      StreamReadsBack(num, p, items, from);
      ExactIffWireSafe(events);
    } else {
      var k :| 0 <= k < |events| && !NoNewline(events[k].eventType);
      assert events[k] in events && !WireSafe(events[k].eventType);
      FeedKeepsTypesClean(num, p, text);
      ArrivalAt(Exact, events);
    }
  }

  lemma FeedKeepsTypesClean(num: IdReader, p: Fields, text: string)
    requires TypeClean(p)
    ensures TypesClean(Feed(Lines(num), Framed("", p), text).1.events)
  {
    SplitHoldsNoNewline("" + text);
    LinesKeepTypesClean(num, p, Split("" + text).lines);
  }

  lemma ExactIffWireSafe(events: seq<Event>)
    requires Printable(events)
    ensures Arrivals(OnArrival, events) == Arrivals(Exact, events)
            <==> forall e :: e in events ==> WireSafe(e.eventType)
  {
    ArrivalAt(Exact, events);
    ArrivalAt(OnArrival, events);
    if forall e :: e in events ==> WireSafe(e.eventType) {
      assert forall k :: 0 <= k < |events| ==> events[k] in events;
    } else {
      var e :| e in events && !WireSafe(e.eventType);
      var k :| 0 <= k < |events| && events[k] == e;
      assert Arrivals(OnArrival, events)[k] != Arrivals(Exact, events)[k];
    }
  }
}

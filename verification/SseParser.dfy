/** The incremental Server-Sent Events parser of apps/control-plane/public/sse.js:
    the field grammar, numbering and deduplication, and the mutable parser object. */
module SseParsing {
  import opened JsNumbers
  import opened Wrappers
  import opened SseOutput
  import opened LineFraming
  import opened StringSearch

  datatype Pending = Pending(id: Option<string>, event: Option<string>, dataLines: seq<string>)

  const FRESH := Pending(None, None, [])

  /** The part of the parser that lines change; the held-back text is the framing's. */
  datatype Fields = Fields(pending: Pending, lastSeq: int)

  type Parser = Framed<Fields>

  function Join(lines: seq<string>): string {
    if lines == [] then "" else if |lines| == 1 then lines[0] else lines[0] + "\n" + Join(lines[1..])
  }

  /** Drops the carriage return of a CRLF line end. */
  function StripCr(line: string): string {
    if line != "" && line[|line| - 1] == '\r' then line[..|line| - 1] else line
  }

  function StripSpace(value: string): string {
    if value != "" && value[0] == ' ' then value[1..] else value
  }

  function ReadId(num: IdReader, id: Option<string>): Option<nat> {
    if id.Some? && id.value != "" then num(id.value) else None
  }

  /** A blank line: numbers, deduplicates and emits what has been accumulated. */
  function Dispatch(num: IdReader, p: Fields): (Fields, Out) {
    var e := p.pending;
    var q := p.(pending := FRESH);
    if e == FRESH then (q, NOTHING) else
      var number := ReadId(num, e.id);
      var event := Dispatched(number, e.event, Join(e.dataLines));
      match number
      case None => (q, Out([event], [], 0))
      case Some(n) =>
        if n <= p.lastSeq then (q, Out([], [], 1))
        else
          var gaps := if p.lastSeq != -1 && n != p.lastSeq + 1 then [Gap(p.lastSeq + 1, n)] else [];
          (q.(lastSeq := n), Out([event], gaps, 0))
  }

  function Field(pending: Pending, line: string): Pending {
    var colon := Find(line, ':');
    var name := line[..colon];
    var value := if colon == |line| then "" else StripSpace(line[colon + 1..]);
    if name == "id" then pending.(id := Some(value))
    else if name == "event" then pending.(event := Some(value))
    else if name == "data" then pending.(dataLines := pending.dataLines + [value])
    else pending
  }

  function Line(num: IdReader, p: Fields, raw: string): (Fields, Out) {
    var line := StripCr(raw);
    if line == "" then Dispatch(num, p)
    else if line[0] == ':' then (p, NOTHING)
    else (p.(pending := Field(p.pending, line)), NOTHING)
  }

  function Lines(num: IdReader): Handler<Fields> {
    (p, raw) => Line(num, p, raw)
  }

  // ---------------------------------------------------------------- the grammar of a line

  /** One carriage return at the end of a line is no part of it, and one space after the colon none of the value. */
  lemma StripsOne(s: string)
    ensures StripCr(s + "\r") == s && StripSpace(" " + s) == s
    ensures (s == "" || s[|s| - 1] != '\r') ==> StripCr(s) == s
    ensures (s == "" || s[0] != ' ') ==> StripSpace(s) == s
  {
    assert (s + "\r")[..|s|] == s && (" " + s)[1..] == s;
  }

  /** What a field stands for: an id and an event replace the one before, data is added, and any other name,
      like a name with no colon after it but those three, counts for nothing. */
  lemma FieldIs(pending: Pending, name: string, value: string)
    requires ':' !in name
    ensures var now := Field(pending, name + ":" + value);
            && now.id == (if name == "id" then Some(StripSpace(value)) else pending.id)
            && now.event == (if name == "event" then Some(StripSpace(value)) else pending.event)
            && now.dataLines == if name == "data" then pending.dataLines + [StripSpace(value)] else pending.dataLines
    ensures Field(pending, name) == Field(pending, name + ":")
  {
    var line := name + ":" + value;
    assert line[..|name|] == name && line[|name| + 1..] == value;
    FindFirst(line, ':', |name|);
    var bare := name + ":";
    assert bare[..|name|] == name && bare[|name| + 1..] == "";
    FindFirst(bare, ':', |name|);
    FindIsFirst(name, ':');
    assert Find(name, ':') == |name| && name[..|name|] == name;
  }

  /** Data lines are joined so that, a newline after them, they are those lines again. */
  lemma {:induction false} JoinedLines(lines: seq<string>)
    requires lines != []
    ensures Join(lines) + "\n" == Terminated(lines)
  {
    if |lines| > 1 {
      JoinedLines(lines[1..]);
      assert Join(lines) + "\n" == lines[0] + "\n" + (Join(lines[1..]) + "\n");
    } else {
      assert lines[1..] == [];
      assert Terminated(lines) == lines[0] + "\n" + "";
    }
  }

  // ---------------------------------------------------------------- the remembered number

  /** The sequence number a parser remembers is the last one it let through. */
  function LastNumber(before: int, events: seq<Dispatched>): int {
    if events == [] then before
    else
      var last := events[|events| - 1];
      if last.number.Some? then last.number.value else LastNumber(before, events[..|events| - 1])
  }

  lemma {:induction false} LastNumberSplit(before: int, a: seq<Dispatched>, b: seq<Dispatched>)
    ensures LastNumber(before, a + b) == LastNumber(LastNumber(before, a), b)
    decreases |b|
  {
    if b == [] {
      assert a + b == a;
    } else {
      assert (a + b)[..|a + b| - 1] == a + b[..|b| - 1];
      LastNumberSplit(before, a, b[..|b| - 1]);
    }
  }

  lemma LineTracksLastNumber(num: IdReader, p: Fields, raw: string)
    ensures Line(num, p, raw).0.lastSeq == LastNumber(p.lastSeq, Line(num, p, raw).1.events)
  {
    var events := Line(num, p, raw).1.events;
    assert events != [] ==> events == [events[0]] && events[..0] == [];
  }

  lemma {:induction false} CharsTrackLastNumber(num: IdReader, p: Parser, text: string)
    ensures var (q, out) := Chars(Lines(num), p, text);
            q.state.lastSeq == LastNumber(p.state.lastSeq, out.events)
    decreases |text|
  {
    if text != "" {
      var init, c := text[..|text| - 1], text[|text| - 1];
      assert text == init + [c];
      CharsTrackLastNumber(num, p, init);
      RunSnoc(CharStep(Lines(num)), p, init, c);
      var (q, out) := Chars(Lines(num), p, init);
      LineTracksLastNumber(num, q.state, q.buffer);
      LastNumberSplit(p.state.lastSeq, out.events, Char(Lines(num), q, c).1.events);
    }
  }

  // ---------------------------------------------------------------- the parser object

  /** The object `createSseParser` returns, updated in place by `parseSseChunks`. */
  class SseParser {
    var buffer: string
    var pending: Pending
    var lastSeq: int

    function State(): Parser
      reads this
    {
      Framed(buffer, Fields(pending, lastSeq))
    }

    constructor ()
      ensures State() == Framed("", Fields(FRESH, -1))
    {
      buffer := "";
      pending := FRESH;
      lastSeq := -1;
    }

    /** A number that is not above the last one is a duplicate, and one that does not follow it a gap. */
    method DispatchPending(num: IdReader, out: Out) returns (now: Out)
      modifies this`pending, this`lastSeq
      ensures pending == Pending(None, None, [])
      ensures old(pending) == Pending(None, None, []) ==> now == out && lastSeq == old(lastSeq)
      ensures old(pending) != Pending(None, None, []) ==>
                var p, last := old(pending), old(lastSeq);
                var number := if p.id.Some? && p.id.value != "" then num(p.id.value) else None;
                if number.Some? && number.value <= last then
                  now == out.(duplicates := out.duplicates + 1) && lastSeq == last
                else
                  && now.events == out.events + [Dispatched(number, p.event, Join(p.dataLines))]
                  && now.duplicates == out.duplicates
                  && lastSeq == (if number.Some? then number.value else last)
                  && now.gaps == if number.Some? && last != -1 && number.value > last + 1
                                 then out.gaps + [Gap(last + 1, number.value)] else out.gaps
      ensures State() == Framed(old(buffer), Dispatch(num, old(State().state)).0)
      ensures now == out.Then(Dispatch(num, old(State().state)).1)
    {
      var p := pending;
      now := out;
      pending := FRESH;
      ThenNothing(out);
      if p.id.None? && p.event.None? && p.dataLines == [] {
        return;
      }
      var number := ReadId(num, p.id);
      var event := Dispatched(number, p.event, Join(p.dataLines));
      if number.Some? {
        if number.value <= lastSeq {
          now := now.(duplicates := now.duplicates + 1);
          return;
        }
        if lastSeq != -1 && number.value != lastSeq + 1 {
          now := now.(gaps := now.gaps + [Gap(lastSeq + 1, number.value)]);
        }
        lastSeq := number.value;
      }
      now := now.(events := now.events + [event]);
    }

    /** `parseSseChunks`: exactly one `Feed` of the parser's value. */
    method ParseSseChunks(num: IdReader, chunk: string) returns (out: Out)
      modifies this
      ensures (State(), out) == Feed(Lines(num), old(State()), chunk)
    {
      out := NOTHING;
      var cut := Split(buffer + chunk);
      buffer := cut.rest;
      ghost var start := State().state;
      var k := 0;
      while k < |cut.lines|
        invariant 0 <= k <= |cut.lines|
        invariant buffer == cut.rest
        invariant (State().state, out) == Run(Lines(num), start, cut.lines[..k])
      {
        RunSnoc(Lines(num), start, cut.lines[..k], cut.lines[k]);
        assert cut.lines[..k + 1] == cut.lines[..k] + [cut.lines[k]];
        ThenNothing(out);
        var line := StripCr(cut.lines[k]);
        if line == "" {
          out := DispatchPending(num, out);
        } else if line[0] != ':' {
          pending := Field(pending, line);
        }
        k := k + 1;
      }
      assert cut.lines[..k] == cut.lines;
    }
  }
}

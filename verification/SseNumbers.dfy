/** What the parser of apps/control-plane/public/sse.js makes of event numbers, for any text in any pieces:
    which events it hands out, which it drops, and which gaps it reports. */
module SseNumbers {
  import opened JsNumbers
  import opened Wrappers
  import opened SseOutput
  import opened LineFraming
  import opened SseParsing

  // ---------------------------------------------------------------- what is said of a list of events

  /** Numbers rise strictly, from above `before`. */
  ghost predicate RisesAbove(before: int, events: seq<Dispatched>) {
    && (forall i :: 0 <= i < |events| && events[i].number.Some? ==> before < events[i].number.value)
    && (forall i, j :: 0 <= i < j < |events| && events[i].number.Some? && events[j].number.Some? ==>
          events[i].number.value < events[j].number.value)
  }

  /** For each event whose number does not continue that of the numbered event before it, what was expected
      and what came; a stream that starts fresh expects nothing. */
  function Missing(before: int, events: seq<Dispatched>): seq<Gap> {
    if events == [] then []
    else
      var init, last := events[..|events| - 1], events[|events| - 1];
      var previous := LastNumber(before, init);
      if last.number.None? || previous == -1 || last.number.value == previous + 1 then Missing(before, init)
      else Missing(before, init) + [Gap(previous + 1, last.number.value)]
  }

  /** What is left of `events` without those whose number is not above that of the last numbered one left. */
  function Kept(before: int, events: seq<Dispatched>): seq<Dispatched> {
    if events == [] then []
    else
      var init, last := Kept(before, events[..|events| - 1]), events[|events| - 1];
      if last.number.Some? && last.number.value <= LastNumber(before, init) then init else init + [last]
  }

  lemma {:induction false} LastIsHighest(before: int, events: seq<Dispatched>)
    requires RisesAbove(before, events)
    ensures before <= LastNumber(before, events)
    ensures forall i :: 0 <= i < |events| && events[i].number.Some? ==>
              events[i].number.value <= LastNumber(before, events)
  {
    if events != [] {
      LastIsHighest(before, events[..|events| - 1]);
    }
  }

  /** A list grown by an event. */
  lemma OneMoreRises(before: int, events: seq<Dispatched>, e: Dispatched)
    requires RisesAbove(before, events)
    requires e.number.Some? ==> LastNumber(before, events) < e.number.value
    ensures RisesAbove(before, events + [e])
  {
    LastIsHighest(before, events);
  }

  // ---------------------------------------------------------------- the parser without numbers

  /** A parser that hands out every event it completes, whatever its number. */
  function PlainLine(num: IdReader, pending: Pending, raw: string): (Pending, Out) {
    var line := StripCr(raw);
    if line != "" then (if line[0] == ':' then pending else Field(pending, line), NOTHING)
    else if pending == FRESH then (FRESH, NOTHING)
    else (FRESH, Out([Dispatched(ReadId(num, pending.id), pending.event, Join(pending.dataLines))], [], 0))
  }

  function PlainLines(num: IdReader): Handler<Pending> {
    (p, raw) => PlainLine(num, p, raw)
  }

  /** The parser, having put out `out` since it remembered `before`, is the plain one with `all`. */
  ghost predicate Tracks(before: int, p: Parser, out: Out, plain: Framed<Pending>, all: Out) {
    && p.buffer == plain.buffer && p.state.pending == plain.state
    && p.state.lastSeq == LastNumber(before, out.events)
    && out.events == Kept(before, all.events) && out.duplicates == |all.events| - |out.events|
    && RisesAbove(before, out.events) && out.gaps == Missing(before, out.events)
  }

  lemma KeptSnoc(before: int, events: seq<Dispatched>, e: Dispatched)
    ensures var kept := Kept(before, events);
            Kept(before, events + [e]) ==
              if e.number.Some? && e.number.value <= LastNumber(before, kept) then kept else kept + [e]
  {
    assert (events + [e])[..|events|] == events;
  }

  lemma MissingSnoc(before: int, events: seq<Dispatched>, e: Dispatched)
    ensures var previous := LastNumber(before, events);
            Missing(before, events + [e]) ==
              if e.number.None? || previous == -1 || e.number.value == previous + 1 then Missing(before, events)
              else Missing(before, events) + [Gap(previous + 1, e.number.value)]
    ensures LastNumber(before, events + [e]) == if e.number.Some? then e.number.value else LastNumber(before, events)
  {
    assert (events + [e])[..|events|] == events;
  }

  /** One more event completed: dropped, or handed out with the gap it leaves. */
  lemma EventTracks(before: int, last: int, out: Out, more: Out, all: Out, e: Dispatched)
    requires last == LastNumber(before, out.events) && out.events == Kept(before, all.events)
    requires out.duplicates == |all.events| - |out.events|
    requires RisesAbove(before, out.events) && out.gaps == Missing(before, out.events)
    requires if e.number.Some? && e.number.value <= last then more == Out([], [], 1)
             else && more.events == [e] && more.duplicates == 0
                  && more.gaps == if e.number.None? || last == -1 || e.number.value == last + 1 then []
                                  else [Gap(last + 1, e.number.value)]
    ensures var now, any := out.Then(more), all.Then(Out([e], [], 0));
            && now.events == Kept(before, any.events) && now.duplicates == |any.events| - |now.events|
            && RisesAbove(before, now.events) && now.gaps == Missing(before, now.events)
            && LastNumber(before, now.events)
               == if e.number.Some? && e.number.value > last then e.number.value else last
  {
    KeptSnoc(before, all.events, e);
    MissingSnoc(before, out.events, e);
    if e.number.Some? && e.number.value <= last {
      assert out.events + [] == out.events && out.gaps + [] == out.gaps;
    } else {
      OneMoreRises(before, out.events, e);
    }
  }

  /** The two parsers on one line: neither puts anything out, or both complete the same event. */
  lemma LineIs(num: IdReader, p: Fields, raw: string) returns (e: Dispatched)
    ensures var (q, more) := Line(num, p, raw);
            var (rest, any) := PlainLine(num, p.pending, raw);
            && q.pending == rest
            && if any == NOTHING then more == NOTHING && q.lastSeq == p.lastSeq
               else
                 && any == Out([e], [], 0)
                 && q.lastSeq == (if e.number.Some? && e.number.value > p.lastSeq then e.number.value else p.lastSeq)
                 && if e.number.Some? && e.number.value <= p.lastSeq then more == Out([], [], 1)
                    else && more.events == [e] && more.duplicates == 0
                         && more.gaps == if e.number.None? || p.lastSeq == -1 || e.number.value == p.lastSeq + 1 then []
                                         else [Gap(p.lastSeq + 1, e.number.value)]
  {
    e := Dispatched(ReadId(num, p.pending.id), p.pending.event, Join(p.pending.dataLines));
  }

  lemma LineTracks(num: IdReader, before: int, p: Fields, out: Out, plain: Pending, all: Out, raw: string)
    requires Tracks(before, Framed("", p), out, Framed("", plain), all)
    ensures var (q, more) := Line(num, p, raw);
            var (rest, any) := PlainLine(num, plain, raw);
            Tracks(before, Framed("", q), out.Then(more), Framed("", rest), all.Then(any))
  {
    var more, any := Line(num, p, raw).1, PlainLine(num, plain, raw).1;
    var e := LineIs(num, p, raw);
    if any == NOTHING {
      ThenNothing(out);
      ThenNothing(all);
    } else {
      EventTracks(before, p.lastSeq, out, more, all, e);
    }
  }

  lemma CharTracks(num: IdReader, before: int, p: Parser, out: Out, plain: Framed<Pending>, all: Out, c: char)
    requires Tracks(before, p, out, plain, all)
    ensures var (q, more) := Char(Lines(num), p, c);
            var (rest, any) := Char(PlainLines(num), plain, c);
            Tracks(before, q, out.Then(more), rest, all.Then(any))
  {
    ThenNothing(out);
    ThenNothing(all);
    if c == '\n' {
      LineTracks(num, before, p.state, out, plain.state, all, p.buffer);
    }
  }

  lemma {:induction false} CharsTrack(num: IdReader, p: Parser, text: string)
    ensures var (q, out) := Chars(Lines(num), p, text);
            var (rest, all) := Chars(PlainLines(num), Framed(p.buffer, p.state.pending), text);
            Tracks(p.state.lastSeq, q, out, rest, all)
    decreases |text|
  {
    if text != "" {
      var init, c := text[..|text| - 1], text[|text| - 1];
      assert text == init + [c];
      CharsTrack(num, p, init);
      RunSnoc(CharStep(Lines(num)), p, init, c);
      RunSnoc(CharStep(PlainLines(num)), Framed(p.buffer, p.state.pending), init, c);
      var (q, out) := Chars(Lines(num), p, init);
      var (rest, all) := Chars(PlainLines(num), Framed(p.buffer, p.state.pending), init);
      CharTracks(num, p.state.lastSeq, q, out, rest, all, c);
    }
  }

  /** For any text: the numbers handed out rise strictly from above the remembered one; the gaps are exactly
      the ranges they leave out; and what is dropped, and counted, is exactly what would not rise. */
  lemma NumbersRiseAndGapsAreExact(num: IdReader, p: Parser, text: string)
    requires NoNewline(p.buffer)
    ensures var out := Feed(Lines(num), p, text).1;
            var all := Feed(PlainLines(num), Framed(p.buffer, p.state.pending), text).1;
            && RisesAbove(p.state.lastSeq, out.events)
            && out.gaps == Missing(p.state.lastSeq, out.events)
            && out.events == Kept(p.state.lastSeq, all.events)
            && out.duplicates == |all.events| - |out.events|
  {
    FeedIsChars(Lines(num), p, text);
    FeedIsChars(PlainLines(num), Framed(p.buffer, p.state.pending), text);
    CharsTrack(num, p, text);
  }
}

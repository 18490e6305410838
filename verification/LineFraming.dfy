/** How `parseSseChunks` cuts a text that arrives in pieces into lines, whatever the lines mean.

    `Feed` is the code's way: append the chunk, split on newlines, hold the last fragment
    back.  `Chars` is an independent one-character-at-a-time reading.  The two are proved
    equal, so where the network cuts the text cannot matter. */
module LineFraming {
  import opened SseOutput
  import opened StringSearch

  /** The text held back, and the state the line handler keeps. */
  datatype Framed<P> = Framed(buffer: string, state: P)

  /** What a complete line, without its newline, does. */
  type Handler<!P> = Step<P, string>

  predicate NoNewline(s: string) {
    '\n' !in s
  }

  /** `s.split("\n")`: complete lines, then the fragment after the last newline. */
  datatype Cut = Cut(lines: seq<string>, rest: string)

  function Split(s: string): Cut
    decreases |s|
  {
    var i := Find(s, '\n');
    if i == |s| then Cut([], s)
    else
      var cut := Split(s[i + 1..]);
      Cut([s[..i]] + cut.lines, cut.rest)
  }

  lemma {:induction false} SplitHoldsNoNewline(s: string)
    ensures NoNewline(Split(s).rest)
    ensures forall line :: line in Split(s).lines ==> NoNewline(line)
    decreases |s|
  {
    var i := Find(s, '\n');
    FindIsFirst(s, '\n');
    if i == |s| {
      assert s[..i] == s;
    } else {
      SplitHoldsNoNewline(s[i + 1..]);
    }
  }

  function Feed<P>(handle: Handler<P>, p: Framed<P>, chunk: string): (Framed<P>, Out) {
    var cut := Split(p.buffer + chunk);
    var (state, out) := Run(handle, p.state, cut.lines);
    (Framed(cut.rest, state), out)
  }

  function FeedStep<P>(handle: Handler<P>): Step<Framed<P>, string> {
    (p, chunk) => Feed(handle, p, chunk)
  }

  function FeedAll<P>(handle: Handler<P>, p: Framed<P>, chunks: seq<string>): (Framed<P>, Out) {
    Run(FeedStep(handle), p, chunks)
  }

  function Concat(chunks: seq<string>): string {
    if chunks == [] then "" else chunks[0] + Concat(chunks[1..])
  }

  // ---------------------------------------------------------------- the automaton

  function Char<P>(handle: Handler<P>, p: Framed<P>, c: char): (Framed<P>, Out) {
    if c == '\n' then
      var (state, out) := handle(p.state, p.buffer);
      (Framed("", state), out)
    else (p.(buffer := p.buffer + [c]), NOTHING)
  }

  function CharStep<P>(handle: Handler<P>): Step<Framed<P>, char> {
    (p, c) => Char(handle, p, c)
  }

  function Chars<P>(handle: Handler<P>, p: Framed<P>, text: string): (Framed<P>, Out) {
    Run(CharStep(handle), p, text)
  }

  lemma CharsSplit<P>(handle: Handler<P>, p: Framed<P>, a: string, b: string)
    ensures var (q, first) := Chars(handle, p, a);
            var (r, rest) := Chars(handle, q, b);
            Chars(handle, p, a + b) == (r, first.Then(rest))
  {
    RunSplit(CharStep(handle), p, a, b);
  }

  lemma SplitLast(before: string, text: string)
    requires text != ""
    ensures var init, c := text[..|text| - 1], text[|text| - 1];
            text == init + [c] && (before + init) + [c] == before + text
  {
  }

  lemma {:induction false} CharsHold<P>(handle: Handler<P>, p: Framed<P>, text: string)
    requires NoNewline(text)
    ensures Chars(handle, p, text) == (p.(buffer := p.buffer + text), NOTHING)
    decreases |text|
  {
    if text == "" {
      assert p.buffer + text == p.buffer;
    } else {
      var init, c := text[..|text| - 1], text[|text| - 1];
      SplitLast(p.buffer, text);
      CharsHold(handle, p, init);
      RunSnoc(CharStep(handle), p, init, c);
      assert Chars(handle, p, init) == (p.(buffer := p.buffer + init), NOTHING);
      assert Chars(handle, p, init + [c]) == (p.(buffer := (p.buffer + init) + [c]), NOTHING.Then(NOTHING));
      ThenNothing(NOTHING);
    }
  }

  lemma CharsLine<P>(handle: Handler<P>, state: P, line: string)
    requires NoNewline(line)
    ensures Chars(handle, Framed("", state), line + "\n")
            == var (next, out) := handle(state, line); (Framed("", next), out)
  {
    var p := Framed("", state);
    CharsHold(handle, p, line);
    assert "" + line == line;
    RunSnoc(CharStep(handle), p, line, '\n');
    ThenNothing(handle(state, line).1);
  }

  /** From an empty buffer, the automaton hands over the split lines and holds the rest. */
  lemma {:induction false} CharsAreLines<P>(handle: Handler<P>, state: P, text: string)
    ensures var cut := Split(text);
            var (next, out) := Run(handle, state, cut.lines);
            Chars(handle, Framed("", state), text) == (Framed(cut.rest, next), out)
    decreases |text|
  {
    var i := Find(text, '\n');
    FindIsFirst(text, '\n');
    if i == |text| {
      assert text[..i] == text;
      CharsHold(handle, Framed("", state), text);
      assert "" + text == text;
    } else {
      var line, rest := text[..i], text[i + 1..];
      assert text == (line + "\n") + rest;
      CharsSplit(handle, Framed("", state), line + "\n", rest);
      CharsLine(handle, state, line);
      var next := handle(state, line).0;
      CharsAreLines(handle, next, rest);
      assert Split(text).lines[1..] == Split(rest).lines;
    }
  }

  lemma CharsRestart<P>(handle: Handler<P>, p: Framed<P>, text: string)
    requires NoNewline(p.buffer)
    ensures Chars(handle, Framed("", p.state), p.buffer + text) == Chars(handle, p, text)
  {
    CharsSplit(handle, Framed("", p.state), p.buffer, text);
    CharsHold(handle, Framed("", p.state), p.buffer);
    assert "" + p.buffer == p.buffer;
    ThenNothing(Chars(handle, p, text).1);
  }

  /** Every call, on every value, is the automaton run over the held-back text and the chunk. */
  lemma FeedIsChars<P>(handle: Handler<P>, p: Framed<P>, chunk: string)
    ensures Feed(handle, p, chunk) == Chars(handle, Framed("", p.state), p.buffer + chunk)
    ensures NoNewline(p.buffer) ==> Feed(handle, p, chunk) == Chars(handle, p, chunk)
  {
    CharsAreLines(handle, p.state, p.buffer + chunk);
    if NoNewline(p.buffer) {
      CharsRestart(handle, p, chunk);
    }
  }

  lemma FeedHoldsNoNewline<P>(handle: Handler<P>, p: Framed<P>, chunk: string)
    ensures NoNewline(Feed(handle, p, chunk).0.buffer)
  {
    SplitHoldsNoNewline(p.buffer + chunk);
  }

  lemma Reassociate(a: string, b: string, c: string)
    ensures a + (b + c) == (a + b) + c
  {
  }

  lemma FeedSplit<P>(handle: Handler<P>, p: Framed<P>, a: string, b: string)
    ensures var (q, first) := Feed(handle, p, a);
            var (r, rest) := Feed(handle, q, b);
            Feed(handle, p, a + b) == (r, first.Then(rest))
  {
    FeedIsChars(handle, p, a + b);
    FeedIsChars(handle, p, a);
    Reassociate(p.buffer, a, b);
    CharsSplit(handle, Framed("", p.state), p.buffer + a, b);
    FeedHoldsNoNewline(handle, p, a);
    FeedIsChars(handle, Feed(handle, p, a).0, b);
  }

  lemma OneChunk(chunks: seq<string>)
    requires |chunks| == 1
    ensures chunks == [chunks[0]] && Concat(chunks) == chunks[0]
  {
    assert chunks[1..] == [];
    assert chunks[0] + "" == chunks[0];
  }

  /** Chunking is unobservable: for any parser value and any text, well formed or not, any
      non-empty list of pieces gives the state and the output of one whole call. */
  lemma {:induction false} ChunkingIsUnobservable<P>(handle: Handler<P>, p: Framed<P>, chunks: seq<string>)
    requires chunks != []
    ensures FeedAll(handle, p, chunks) == Feed(handle, p, Concat(chunks))
    decreases |chunks|
  {
    if |chunks| == 1 {
      OneChunk(chunks);
      RunOne(FeedStep(handle), p, chunks[0]);
    } else {
      ChunkingIsUnobservable(handle, Feed(handle, p, chunks[0]).0, chunks[1..]);
      FeedSplit(handle, p, chunks[0], Concat(chunks[1..]));
    }
  }

  /** No pieces at all agree with one call on "" exactly when no whole line is held back,
      as in every value a call leaves behind (`FeedHoldsNoNewline`). */
  lemma NoChunksIsNoText<P>(handle: Handler<P>, p: Framed<P>)
    ensures FeedAll(handle, p, []) == Feed(handle, p, "") <==> NoNewline(p.buffer)
  {
    FeedHoldsNoNewline(handle, p, "");
    if NoNewline(p.buffer) {
      FeedIsChars(handle, p, "");
    }
  }

  // ---------------------------------------------------------------- texts made of whole lines

  function Terminated(lines: seq<string>): string {
    if lines == [] then "" else lines[0] + "\n" + Terminated(lines[1..])
  }

  lemma {:induction false} TerminatedRuns<P>(handle: Handler<P>, state: P, lines: seq<string>)
    requires forall line :: line in lines ==> NoNewline(line)
    ensures Chars(handle, Framed("", state), Terminated(lines))
            == var (next, out) := Run(handle, state, lines); (Framed("", next), out)
    decreases |lines|
  {
    if lines != [] {
      CharsSplit(handle, Framed("", state), lines[0] + "\n", Terminated(lines[1..]));
      CharsLine(handle, state, lines[0]);
      TerminatedRuns(handle, handle(state, lines[0]).0, lines[1..]);
    }
  }
}

/** What one parser call reports, and left-to-right runs of steps that report it. */
module SseOutput {
  import opened Wrappers

  datatype Dispatched = Dispatched(number: Option<nat>, eventType: Option<string>, rawData: string)

  datatype Gap = Gap(expected: int, got: int)

  datatype Out = Out(events: seq<Dispatched>, gaps: seq<Gap>, duplicates: nat)
  {
    function Then(next: Out): Out {
      Out(events + next.events, gaps + next.gaps, duplicates + next.duplicates)
    }
  }

  const NOTHING := Out([], [], 0)

  lemma ThenNothing(a: Out)
    ensures a.Then(NOTHING) == a
    ensures NOTHING.Then(a) == a
  {
  }

  lemma ThenAssociates(a: Out, b: Out, c: Out)
    ensures a.Then(b).Then(c) == a.Then(b.Then(c))
  {
    assert (a.events + b.events) + c.events == a.events + (b.events + c.events);
    assert (a.gaps + b.gaps) + c.gaps == a.gaps + (b.gaps + c.gaps);
  }

  type Step<!S, !I> = (S, I) -> (S, Out)

  /** Runs a step over an input from the left and joins what the steps put out. */
  function Run<S, I>(step: Step<S, I>, s: S, input: seq<I>): (S, Out)
    decreases |input|
  {
    if input == [] then (s, NOTHING)
    else
      var (t, first) := step(s, input[0]);
      var (u, rest) := Run(step, t, input[1..]);
      (u, first.Then(rest))
  }

  lemma RunOne<S, I>(step: Step<S, I>, s: S, i: I)
    ensures Run(step, s, [i]) == step(s, i)
  {
    var (t, first) := step(s, i);
    assert [i][1..] == [];
    assert Run(step, t, []) == (t, NOTHING);
    ThenNothing(first);
  }

  lemma {:induction false} RunSplit<S, I>(step: Step<S, I>, s: S, a: seq<I>, b: seq<I>)
    ensures var (t, first) := Run(step, s, a);
            var (u, rest) := Run(step, t, b);
            Run(step, s, a + b) == (u, first.Then(rest))
    decreases |a|
  {
    if a == [] {
      assert a + b == b;
      ThenNothing(Run(step, s, b).1);
    } else {
      var (t, first) := step(s, a[0]);
      RunSplit(step, t, a[1..], b);
      assert (a + b)[1..] == a[1..] + b;
      var (u, second) := Run(step, t, a[1..]);
      ThenAssociates(first, second, Run(step, u, b).1);
    }
  }

  /** One more input at the end. */
  lemma RunSnoc<S, I>(step: Step<S, I>, s: S, a: seq<I>, i: I)
    ensures var (t, first) := Run(step, s, a);
            var (u, last) := step(t, i);
            Run(step, s, a + [i]) == (u, first.Then(last))
  {
    RunSplit(step, s, a, [i]);
    RunOne(step, Run(step, s, a).0, i);
  }

  /** Steps that put nothing out only move the state. */
  lemma RunSilently<S, I>(step: Step<S, I>, s: S, i: I, t: S, rest: seq<I>)
    requires step(s, i) == (t, NOTHING)
    ensures Run(step, s, [i] + rest) == Run(step, t, rest)
  {
    RunSplit(step, s, [i], rest);
    RunOne(step, s, i);
    ThenNothing(Run(step, t, rest).1);
  }

  lemma RunFour<S, I>(step: Step<S, I>, s: S, a: I, t: S, b: I, u: S, c: I, v: S, d: I)
    requires step(s, a) == (t, NOTHING) && step(t, b) == (u, NOTHING) && step(u, c) == (v, NOTHING)
    ensures Run(step, s, [a, b, c, d]) == step(v, d)
  {
    RunSilently(step, u, c, v, [d]);
    RunSilently(step, t, b, u, [c, d]);
    RunSilently(step, s, a, t, [b, c, d]);
    RunOne(step, v, d);
    assert [c] + [d] == [c, d] && [b] + [c, d] == [b, c, d] && [a] + [b, c, d] == [a, b, c, d];
  }
}

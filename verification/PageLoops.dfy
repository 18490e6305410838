/** The reconnect loops of the page (apps/control-plane/public/app.js): `sseConnect` starts one, and a
    manual disconnect ends it, at once if it is fetching or reading, but only when it wakes if it is
    waiting to reconnect.  A loop that ends forgets the current loop, which may be another one by then.

    A row is handed over as `Delivery` proves a stream does: the rows from its cursor on, in order. */
module PageLoops {
  import opened Wrappers

  datatype Phase =
    | Fetching(cursor: nat)
    | Streaming(next: nat)
    | BackOff(aborted: bool)
    | Ended

  /** `current` is `state.sse`; `shown` are the numbers of the rows on the page, `rows` how many are stored. */
  datatype Page = Page(loops: seq<Phase>, current: Option<nat>, maxSeq: int, shown: seq<nat>, rows: nat)

  datatype Action =
    | Append
    | ClickConnect
    | ClickDisconnect
    | Opened(l: nat)   // the response has come
    | Arrived(l: nat)  // one more row of the stream
    | Failed(l: nat)   // refused, dropped or over
    | Woke(l: nat)     // the two seconds are over

  function FreshPage(rows: nat): Page {
    Page([], None, -1, [], rows)
  }

  predicate Enabled(p: Page, a: Action) {
    match a
    case Opened(l) => l < |p.loops| && p.loops[l].Fetching?
    case Arrived(l) => l < |p.loops| && p.loops[l].Streaming? && p.loops[l].next < p.rows
    case Failed(l) => l < |p.loops| && (p.loops[l].Fetching? || p.loops[l].Streaming?)
    case Woke(l) => l < |p.loops| && p.loops[l].BackOff?
    case _ => true
  }

  function Cursor(p: Page): nat {
    if p.maxSeq >= 0 then p.maxSeq + 1 else 0
  }

  function Apply(p: Page, a: Action): Page
    requires Enabled(p, a)
  {
    match a
    case Append => p.(rows := p.rows + 1)
    case ClickConnect =>
      if p.current.Some? then p
      else p.(loops := p.loops + [Fetching(Cursor(p))], current := Some(|p.loops|))
    case ClickDisconnect =>
      if p.current.None? || p.current.value >= |p.loops| then p.(current := None)
      else
        var i := p.current.value;
        p.(loops := p.loops[i := if p.loops[i].BackOff? then BackOff(true) else Ended], current := None)
    case Opened(l) => p.(loops := p.loops[l := Streaming(p.loops[l].cursor)])
    case Arrived(l) =>
      var n := p.loops[l].next;
      p.(loops := p.loops[l := Streaming(n + 1)], shown := p.shown + [n],
         maxSeq := if n > p.maxSeq then n else p.maxSeq)
    case Failed(l) => p.(loops := p.loops[l := BackOff(false)])
    case Woke(l) =>
      if p.current.Some? && !p.loops[l].aborted then p.(loops := p.loops[l := Fetching(Cursor(p))])
      else p.(loops := p.loops[l := Ended], current := None)
  }

  /** The page shows the first `maxSeq + 1` rows, each once, in order. */
  ghost predicate ShowsPrefix(p: Page) {
    && -1 <= p.maxSeq < p.rows && |p.shown| == p.maxSeq + 1
    && forall k :: 0 <= k < |p.shown| ==> p.shown[k] == k
  }

  // ---------------------------------------------------------------- careful clicks

  /** A loop that was disconnected while it waited to reconnect still waits. */
  ghost predicate StillWaits(p: Page) {
    exists l :: 0 <= l < |p.loops| && p.loops[l] == BackOff(true)
  }

  /** Connect is not clicked while a disconnected loop still waits. */
  ghost predicate Careful(p: Page, a: Action) {
    a.ClickConnect? && p.current.None? ==> !StillWaits(p)
  }

  /** The page after these actions, if each was possible and careful. */
  ghost function Run(p: Page, actions: seq<Action>): Option<Page>
    decreases |actions|
  {
    if actions == [] then Some(p)
    else if Enabled(p, actions[0]) && Careful(p, actions[0]) then Run(Apply(p, actions[0]), actions[1..])
    else None
  }

  predicate InPlace(phase: Phase, maxSeq: int) {
    (phase.Fetching? ==> phase.cursor == maxSeq + 1) && (phase.Streaming? ==> phase.next == maxSeq + 1)
  }

  /** Only one loop has not ended: the current one, or one that was disconnected and still waits. */
  ghost predicate Inv(p: Page) {
    && ShowsPrefix(p)
    && (p.current.Some? ==>
          p.current.value < |p.loops| && !p.loops[p.current.value].Ended? && p.loops[p.current.value] != BackOff(true))
    && (p.current.None? ==> forall l :: 0 <= l < |p.loops| ==> p.loops[l].Ended? || p.loops[l] == BackOff(true))
    && (forall l :: 0 <= l < |p.loops| ==> InPlace(p.loops[l], p.maxSeq))
    && (forall l, m :: 0 <= l < m < |p.loops| ==> p.loops[l].Ended? || p.loops[m].Ended?)
  }

  lemma ArrivedKeepsInv(p: Page, l: nat)
    requires Inv(p) && Enabled(p, Arrived(l))
    ensures Inv(Apply(p, Arrived(l)))
  {
    var q := Apply(p, Arrived(l));
    assert InPlace(p.loops[l], p.maxSeq);
    forall m | 0 <= m < |q.loops| ensures InPlace(q.loops[m], q.maxSeq) {
      assert m != l ==> p.loops[m].Ended?;
    }
  }

  lemma ApplyKeepsInv(p: Page, a: Action)
    requires Inv(p) && Enabled(p, a) && Careful(p, a)
    ensures Inv(Apply(p, a))
  {
    match a
    case Append =>
    case ClickConnect =>
    case ClickDisconnect =>
    case Opened(l) => assert InPlace(p.loops[l], p.maxSeq);
    case Arrived(l) => ArrivedKeepsInv(p, l);
    case Failed(l) =>
    case Woke(l) =>
  }

  lemma {:induction false} RunKeepsInv(p: Page, actions: seq<Action>)
    requires Inv(p) && Run(p, actions).Some?
    ensures Inv(Run(p, actions).value)
    decreases |actions|
  {
    if actions != [] {
      ApplyKeepsInv(p, actions[0]);
      RunKeepsInv(Apply(p, actions[0]), actions[1..]);
    }
  }

  /** With careful clicks the page shows exactly a prefix of the log, however streams fail in between. */
  lemma CarefulPageShowsPrefix(rows: nat, actions: seq<Action>)
    requires Run(FreshPage(rows), actions).Some?
    ensures ShowsPrefix(Run(FreshPage(rows), actions).value)
  {
    RunKeepsInv(FreshPage(rows), actions);
  }

  // ---------------------------------------------------------------- one careless click

  /** `q` can come after `p` without another careless click. */
  ghost predicate CanBecome(p: Page, q: Page) {
    exists more: seq<Action> :: Run(p, more) == Some(q)
  }

  lemma NoStep(p: Page)
    ensures CanBecome(p, p)
  {
    assert Run(p, []) == Some(p);
  }

  lemma StepFirst(p: Page, a: Action, q: Page)
    requires Enabled(p, a) && Careful(p, a) && CanBecome(Apply(p, a), q)
    ensures CanBecome(p, q)
  {
    var rest: seq<Action> :| Run(Apply(p, a), rest) == Some(q);
    assert ([a] + rest)[1..] == rest;
    assert Run(p, [a] + rest) == Some(q);
  }

  /** A disconnect leaves no loop that fetches or reads: the current one ends, unless it waits to reconnect,
      and then it waits on. */
  lemma DisconnectStops(p: Page)
    requires Inv(p)
    ensures var q := Apply(p, ClickDisconnect);
            && q.current.None? && |q.loops| == |p.loops|
            && (forall l :: 0 <= l < |q.loops| ==> q.loops[l].Ended? || q.loops[l] == BackOff(true))
            && (p.current.Some? ==>
                 (q.loops[p.current.value] == BackOff(true) <==> p.loops[p.current.value].BackOff?))
  {
  }

  /** A stream that is refused, drops or ends, at any moment, is waited for anew; it changes nothing else. */
  lemma AnyStreamCanFail(p: Page, l: nat)
    requires l < |p.loops| && (p.loops[l].Fetching? || p.loops[l].Streaming?)
    ensures Enabled(p, Failed(l)) && Apply(p, Failed(l)) == p.(loops := p.loops[l := BackOff(false)])
  {
  }

  /** A row more is stored, whatever the page does. */
  lemma AppendStoresOne(p: Page)
    ensures Enabled(p, Append) && Apply(p, Append) == Page(p.loops, p.current, p.maxSeq, p.shown, p.rows + 1)
  {
  }

  /** And until the next connect nothing more is shown. */
  lemma {:induction false} DisconnectedShowsNothingMore(p: Page, actions: seq<Action>)
    requires Inv(p) && p.current.None? && Run(p, actions).Some? && ClickConnect !in actions
    ensures Run(p, actions).value.current.None? && Run(p, actions).value.shown == p.shown
    decreases |actions|
  {
    if actions != [] {
      var a := actions[0];
      assert a in actions;
      ApplyKeepsInv(p, a);
      DisconnectedShowsNothingMore(Apply(p, a), actions[1..]);
    }
  }

  /** The current loop, unless it was disconnected, fetches again when it wakes, from the row after the last
      one shown. */
  lemma WokenLoopResumes(p: Page, l: nat)
    requires Inv(p) && p.current == Some(l) && p.loops[l].BackOff?
    ensures Enabled(p, Woke(l)) && Apply(p, Woke(l)).current == Some(l)
    ensures |Apply(p, Woke(l)).loops| == |p.loops| && Apply(p, Woke(l)).loops[l] == Fetching(p.maxSeq + 1)
  {
  }

  /** A current loop that streams can show all that is stored. */
  lemma {:induction false} StreamShowsTheRest(p: Page, l: nat) returns (q: Page)
    requires Inv(p) && p.current == Some(l) && p.loops[l].Streaming?
    ensures CanBecome(p, q) && Inv(q) && q.rows == p.rows && q.maxSeq == p.rows - 1
    decreases p.rows - p.maxSeq
  {
    assert InPlace(p.loops[l], p.maxSeq);
    if p.maxSeq == p.rows - 1 {
      NoStep(p);
      q := p;
    } else {
      ApplyKeepsInv(p, Arrived(l));
      q := StreamShowsTheRest(Apply(p, Arrived(l)), l);
      StepFirst(p, Arrived(l), q);
    }
  }

  /** A connected page with careful clicks can always come to show every row that is stored, with no
      further click, wherever its loop stands. */
  lemma ConnectedPageCanCatchUp(p: Page) returns (q: Page)
    requires Inv(p) && p.current.Some?
    ensures CanBecome(p, q) && q.rows == p.rows && q.maxSeq == p.rows - 1 && ShowsPrefix(q)
  {
    var l := p.current.value;
    var fetching := if p.loops[l].BackOff? then Apply(p, Woke(l)) else p;
    if p.loops[l].BackOff? {
      ApplyKeepsInv(p, Woke(l));
    }
    if fetching.loops[l].Fetching? {
      ApplyKeepsInv(fetching, Opened(l));
      q := StreamShowsTheRest(Apply(fetching, Opened(l)), l);
      StepFirst(fetching, Opened(l), q);
    } else {
      q := StreamShowsTheRest(fetching, l);
    }
    if p.loops[l].BackOff? {
      StepFirst(p, Woke(l), q);
    }
  }

  /** After a connect now, even if all later clicks are careful, the page can come to show something else. */
  ghost predicate ConnectCanSpoil(p: Page) {
    exists q: Page :: CanBecome(Apply(p, ClickConnect), q) && !ShowsPrefix(q)
  }

  /** Two loops that stream from the same row: it is shown twice. */
  lemma TwoLoopsRepeat(p: Page, n: nat) returns (q: Page)
    requires ShowsPrefix(p) && p.maxSeq + 1 < p.rows
    requires |p.loops| == n + 2 && p.loops[n] == p.loops[n + 1] == Streaming(p.maxSeq + 1)
    ensures CanBecome(p, q) && !ShowsPrefix(q)
  {
    var once := Apply(p, Arrived(n));
    q := Apply(once, Arrived(n + 1));
    NoStep(q);
    StepFirst(once, Arrived(n + 1), q);
    StepFirst(p, Arrived(n), q);
  }

  /** The disconnected loop `l` ends and forgets the new one, which lives on; the next connect starts
      another beside it, from the same cursor. */
  lemma CarelessConnectSpoils(p: Page, l: nat)
    requires Inv(p) && p.current.None? && l < |p.loops| && p.loops[l] == BackOff(true)
    ensures ConnectCanSpoil(p)
  {
    var n := |p.loops|;
    var p0 := Apply(p, ClickConnect);
    var p1 := Apply(p0, Append);
    var p2 := Apply(p1, Woke(l));
    assert !StillWaits(p2);
    var p3 := Apply(p2, ClickConnect);
    var p4 := Apply(p3, Opened(n));
    var p5 := Apply(p4, Opened(n + 1));
    var q := TwoLoopsRepeat(p5, n);
    StepFirst(p4, Opened(n + 1), q);
    StepFirst(p3, Opened(n), q);
    StepFirst(p2, ClickConnect, q);
    StepFirst(p1, Woke(l), q);
    StepFirst(p0, Append, q);
  }

  /** On a disconnected page whose clicks have been careful, a connect can spoil what is shown exactly
      when a disconnected loop still waits to reconnect. */
  lemma ConnectCanSpoilIff(rows: nat, actions: seq<Action>)
    requires Run(FreshPage(rows), actions).Some? && Run(FreshPage(rows), actions).value.current.None?
    ensures ConnectCanSpoil(Run(FreshPage(rows), actions).value) <==> StillWaits(Run(FreshPage(rows), actions).value)
  {
    var p := Run(FreshPage(rows), actions).value;
    RunKeepsInv(FreshPage(rows), actions);
    if StillWaits(p) {
      var l: nat :| l < |p.loops| && p.loops[l] == BackOff(true);
      CarelessConnectSpoils(p, l);
    } else {
      ApplyKeepsInv(p, ClickConnect);
      forall q: Page | CanBecome(Apply(p, ClickConnect), q) ensures ShowsPrefix(q) {
        var more: seq<Action> :| Run(Apply(p, ClickConnect), more) == Some(q);
        RunKeepsInv(Apply(p, ClickConnect), more);
      }
    }
  }

  /** It does happen: a connect, a stream that fails, a disconnect during the wait. */
  lemma DisconnectDuringTheWait(rows: nat)
    ensures var actions := [ClickConnect, Failed(0), ClickDisconnect];
            && Run(FreshPage(rows), actions).Some?
            && StillWaits(Run(FreshPage(rows), actions).value) && ConnectCanSpoil(Run(FreshPage(rows), actions).value)
  {
    var p := FreshPage(rows);
    var connected := Apply(p, ClickConnect);
    var failed := Apply(connected, Failed(0));
    var q := Apply(failed, ClickDisconnect);
    var actions := [ClickConnect, Failed(0), ClickDisconnect];
    assert actions[1..] == [Failed(0), ClickDisconnect] && actions[1..][1..] == [ClickDisconnect];
    assert actions[1..][1..][1..] == [] && Run(q, []) == Some(q);
    assert Run(failed, [ClickDisconnect]) == Run(q, []);
    assert Run(connected, [Failed(0), ClickDisconnect]) == Run(failed, [ClickDisconnect]);
    assert q.loops[0] == BackOff(true);
    ConnectCanSpoilIff(rows, actions);
  }
}

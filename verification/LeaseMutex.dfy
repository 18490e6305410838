/** The mutex that serialises transactions of the in-memory lease store
    (packages/controller-lease/src/testing.ts). */
module LeaseMutex {
  import opened Wrappers

  /** Callers are numbered by arrival. */
  datatype Lock = Lock(locked: bool, waiters: seq<nat>)

  class Mutex {
    var locked: bool
    var waiters: seq<nat>

    function Abstract(): Lock
      reads this
    {
      Lock(locked, waiters)
    }

    constructor ()
      ensures Abstract() == Lock(false, [])
    {
      locked, waiters := false, [];
    }

    method Acquire(caller: nat) returns (granted: bool)
      modifies this
      ensures Abstract() == Acquired(old(Abstract()), caller) && granted == !old(locked)
    {
      if !locked {
        locked := true;
        return true;
      }
      waiters := waiters + [caller];
      granted := false;
    }

    /** Hands the lock to the first waiter, which sets the flag it finds set; with none, clears it. */
    method Release() returns (next: Option<nat>)
      modifies this
      ensures Abstract() == Released(old(Abstract()))
      ensures next == if old(waiters) == [] then None else Some(old(waiters)[0])
    {
      if waiters != [] {
        next := Some(waiters[0]);
        waiters := waiters[1..];
        locked := true;
      } else {
        next := None;
        locked := false;
      }
    }
  }

  function Acquired(l: Lock, caller: nat): Lock {
    if l.locked then l.(waiters := l.waiters + [caller]) else l.(locked := true)
  }

  function Released(l: Lock): Lock {
    if l.waiters == [] then l.(locked := false) else Lock(true, l.waiters[1..])
  }

  // ---------------------------------------------------------------- every run

  datatype Event = Arrives | Leaves

  /** How many callers have arrived and left, and which have held the lock, in order. */
  datatype Run = Run(lock: Lock, arrived: nat, held: seq<nat>, left: nat)

  /** A holder leaves once; nobody else calls release. */
  predicate Enabled(r: Run, e: Event) {
    e.Leaves? ==> r.left < |r.held|
  }

  function Next(r: Run, e: Event): Run {
    match e
    case Arrives =>
      Run(Acquired(r.lock, r.arrived), r.arrived + 1, if r.lock.locked then r.held else r.held + [r.arrived], r.left)
    case Leaves =>
      var held := if r.lock.waiters == [] then r.held else r.held + [r.lock.waiters[0]];
      Run(Released(r.lock), r.arrived, held, r.left + 1)
  }

  function After(events: seq<Event>): Run {
    if events == [] then Run(Lock(false, []), 0, [], 0) else Next(After(events[..|events| - 1]), events[|events| - 1])
  }

  ghost predicate Legal(events: seq<Event>) {
    forall i :: 0 <= i < |events| ==> Enabled(After(events[..i]), events[i])
  }

  /** The callers that have held the lock, and then those that wait, are the arrivals in order. */
  ghost predicate Fair(r: Run) {
    && |r.held| + |r.lock.waiters| == r.arrived
    && (forall i :: 0 <= i < |r.held| ==> r.held[i] == i)
    && (forall i :: 0 <= i < |r.lock.waiters| ==> r.lock.waiters[i] == |r.held| + i)
    && (r.lock.locked ==> |r.held| == r.left + 1)
    && (!r.lock.locked ==> |r.held| == r.left && r.lock.waiters == [])
  }

  /** Over any run: at most one holder at a time, the lock is granted in order of arrival, and it is
      free only when nobody waits. */
  lemma {:induction false} OneHolderInOrder(events: seq<Event>)
    requires Legal(events)
    ensures Fair(After(events)) && After(events).left <= |After(events).held| <= After(events).left + 1
  {
    if events != [] {
      var front := events[..|events| - 1];
      assert forall i :: 0 <= i < |front| ==> front[..i] == events[..i] && front[i] == events[i];
      assert Legal(front);
      OneHolderInOrder(front);
      assert Enabled(After(front), events[|events| - 1]);
    }
  }

  function Count(events: seq<Event>, e: Event): nat {
    if events == [] then 0
    else Count(events[..|events| - 1], e) + if events[|events| - 1] == e then 1 else 0
  }

  /** Every arrival is counted, and has held the lock once nobody holds it and nobody waits. */
  lemma {:induction false} EveryCallerIsServed(events: seq<Event>)
    requires Legal(events)
    ensures var r := After(events);
            && r.arrived == Count(events, Arrives) && r.left == Count(events, Leaves)
            && (!r.lock.locked ==> |r.held| == Count(events, Arrives) == Count(events, Leaves))
  {
    OneHolderInOrder(events);
    if events != [] {
      var front := events[..|events| - 1];
      assert forall i :: 0 <= i < |front| ==> front[..i] == events[..i] && front[i] == events[i];
      EveryCallerIsServed(front);
    }
  }
}

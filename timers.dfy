/** `bpy.app.timers` as the add-on uses it: callbacks registered with a first interval, fired
    in order of that interval (ties in order of registration). Every callback the add-on
    registers returns None, so each one runs once and leaves the queue. Wall-clock time is
    not modelled; an interval is kept in milliseconds. */
module Timers {
  import opened Wrappers

  /** The callbacks the add-on registers. */
  datatype Callback =
    | RestoreSelection(selected: seq<string>, active: Option<string>)
    | DeferredCleanup(proxies: seq<string>, tempMeshes: seq<string>)
    | ClearExportStatus

  datatype Timer = Timer(delayMs: nat, callback: Callback)

  /** Timer `i` fires before timer `j`. */
  predicate FiresBefore(q: seq<Timer>, i: nat, j: nat)
    requires i < |q| && j < |q|
  {
    q[i].delayMs < q[j].delayMs || (q[i].delayMs == q[j].delayMs && i < j)
  }

  /** The index of the timer that fires next: the smallest interval, the earliest registered
      among equals. */
  function NextDue(q: seq<Timer>): (r: nat)
    requires q != []
    ensures r < |q|
    ensures forall j :: 0 <= j < |q| ==> q[r].delayMs <= q[j].delayMs
    ensures forall j :: 0 <= j < r ==> q[r].delayMs < q[j].delayMs
    decreases |q|
  {
    if |q| == 1 then 0
    else
      var k := NextDue(q[..|q| - 1]);
      if q[|q| - 1].delayMs < q[k].delayMs then |q| - 1 else k
  }

  /** The pending registrations. */
  class TimerQueue {
    var pending: seq<Timer>

    constructor()
      ensures pending == []
    {
      pending := [];
    }

    /** `bpy.app.timers.register(callback, first_interval=...)`. */
    method Register(t: Timer)
      modifies this
      ensures pending == old(pending) + [t]
    {
      pending := pending + [t];
    }

    /** Fire the next due timer. Its callback returns None, so it is dropped from the queue
        and never runs again; the others stay in order. */
    method FireNext() returns (fired: Timer)
      requires pending != []
      modifies this
      ensures fired == old(pending)[NextDue(old(pending))]
      ensures pending == old(pending)[..NextDue(old(pending))] + old(pending)[NextDue(old(pending)) + 1..]
      ensures |pending| == |old(pending)| - 1
    {
      var k := NextDue(pending);
      fired := pending[k];
      pending := pending[..k] + pending[k + 1..];
    }
  }

  const CleanupDelayMs := 100
  const RestoreDelayMs := 200
  const ClearStatusDelayMs := 3000
  const ClearStatusAfterFailureMs := 5000

  /** Whatever was registered first, a deferred cleanup at 0.1 s fires before a selection
      restore at 0.2 s, and that restore before the export status is cleared. */
  lemma CleanupBeforeRestore(q: seq<Timer>, i: nat, j: nat, k: nat)
    requires i < |q| && j < |q| && k < |q|
    requires q[i].delayMs == CleanupDelayMs && q[j].delayMs == RestoreDelayMs
    requires q[k].delayMs == ClearStatusDelayMs || q[k].delayMs == ClearStatusAfterFailureMs
    ensures FiresBefore(q, i, j) && FiresBefore(q, j, k) && !FiresBefore(q, j, i)
  {
  }

  /** The timer chosen to fire next fires before every other pending timer. */
  lemma NextDueIsFirst(q: seq<Timer>, j: nat)
    requires q != [] && j < |q| && j != NextDue(q)
    ensures FiresBefore(q, NextDue(q), j) && !FiresBefore(q, j, NextDue(q))
  {
  }
}

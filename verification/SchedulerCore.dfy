/** What each critical section of the scheduler does to the shared data, as functions on values.

    The pointer code in `SchedulerChain` is proved to compute these functions, and the runs in
    `SchedulerRuns` are built from them, so the two never drift apart. */
module SchedulerCore {
  import opened Clock
  import opened TimerOrder

  const SCHED_OK := 0
  const SCHED_ERROR := -1

  /** The data guarded by the scheduler's mutex, plus the history of freed timers. */
  datatype Core = Core(timers: seq<Timer>, nextId: int, running: bool, freed: seq<int>)

  /** What one pass of the timer thread's loop decides to do. */
  datatype Verdict =
    | Leave
    | WaitForever
    | WaitUntil(due: nat, deadline: Timespec)
    | Fire(timer: Timer)

  /** The arguments `scheduler_after_ms` and `scheduler_every_ms` refuse. */
  predicate Accepts(ms: nat, cb: nat, repeating: bool) {
    cb != 0 && (repeating ==> ms != 0)
  }

  function NewTimer(c: Core, pluginId: nat, ms: nat, cb: nat, user: nat, repeating: bool,
                    reading: Timespec): Timer
  {
    Timer(c.nextId, Wrap64(Millis(reading) + ms), if repeating then ms else 0, cb, user,
          pluginId, repeating)
  }

  function TakeId(c: Core): Core {
    c.(nextId := c.nextId + 1)
  }

  function Publish(c: Core, t: Timer): Core {
    c.(timers := Insert(c.timers, t))
  }

  predicate CancelHits(c: Core, pluginId: nat, id: int) {
    0 < id && Present(c.timers, pluginId, id)
  }

  function Cancel(c: Core, pluginId: nat, id: int): Core {
    if CancelHits(c, pluginId, id)
    then c.(timers := Remove(c.timers, pluginId, id), freed := c.freed + [id])
    else c
  }

  function Decide(c: Core, first: Timespec, second: Timespec): Verdict
    requires Normalised(second)
  {
    if !c.running then Leave
    else if c.timers == [] then WaitForever
    else
      var due := c.timers[0].due;
      if due <= Millis(first) then Fire(c.timers[0])
      else WaitUntil(due, Deadline(second, due - Millis(first)))
  }

  function AfterDecide(c: Core, v: Verdict): Core
    requires v.Fire? ==> c.timers != []
  {
    if v.Fire? then c.(timers := c.timers[1..]) else c
  }

  function Rearm(t: Timer, reading: Timespec): Timer {
    t.(due := Wrap64(Millis(reading) + t.interval))
  }

  /** The section after a callback, reached on return and on a caught crash alike. */
  function Finish(c: Core, t: Timer, reading: Timespec): Core {
    if t.repeating && c.running
    then Publish(c, Rearm(t, reading))
    else c.(freed := c.freed + [t.id])
  }

  function StopRunning(c: Core): Core {
    c.(running := false)
  }

  function Cleanup(c: Core): Core {
    c.(timers := [], freed := c.freed + Ids(c.timers))
  }
}

/** What the scheduler guarantees over whole runs, for every interleaving and every clock. */
module SchedulerTheorems {
  import opened Clock
  import opened TimerOrder
  import opened SchedulerCore
  import opened SchedulerRuns

  lemma Reachable(run: seq<Action>)
    requires Legal(INIT, run)
    ensures Inv(Exec(INIT, run))
  {
    InvInit();
    InvRun(INIT, run);
  }

  /** Every node ever allocated is with a registering thread, on the list, in flight or freed:
      exactly one of the four, exactly once. */
  lemma NodesConserved(run: seq<Action>, id: int)
    requires Legal(INIT, run)
    ensures var s := Exec(INIT, run);
            multiset(Ids(s.pending))[id] + multiset(Ids(s.core.timers))[id]
            + Aloft(s.thread)[id] + multiset(s.core.freed)[id]
            == if 1 <= id < s.core.nextId then 1 else 0
  {
    Reachable(run);
    assert Owners(Exec(INIT, run))[id] == if 1 <= id < Exec(INIT, run).core.nextId then 1 else 0;
  }

  /** The cleanup of `scheduler_shutdown` leaves no node unfreed but those a registering thread
      still holds, and frees none twice. */
  lemma CleanupFreesEverything(run: seq<Action>, id: int)
    requires Legal(INIT, run) && Enabled(Exec(INIT, run), CleanupCall)
    requires 1 <= id < Exec(INIT, run).core.nextId
    ensures var s := Next(Exec(INIT, run), CleanupCall);
            && s.core.timers == [] && !s.thread.InFlight?
            && multiset(s.core.freed)[id] + multiset(Ids(s.pending))[id] == 1
  {
    Reachable(run);
    var s := Next(Exec(INIT, run), CleanupCall);
    InvStep(Exec(INIT, run), CleanupCall);
    assert Ids([]) == [];
    assert Owners(s)[id] == 1;
  }

  /** A sleeping thread never has work it has not been told about.  Either the list is empty, or
      it waits on a deadline whose target is no later than the earliest due time; and the
      scheduler is still running, so a shutdown never leaves it asleep. */
  lemma SleepIsSafe(run: seq<Action>)
    requires Legal(INIT, run)
    ensures var s := Exec(INIT, run);
            Waiting(s.thread) ==>
              && s.core.running && s.phase.Up?
              && (s.thread.Blocked? ==> s.core.timers == [])
              && (s.thread.BlockedUntil? ==>
                    forall t :: t in s.core.timers ==> s.thread.due <= t.due)
  {
    Reachable(run);
  }

  /** A timed wait that runs out finds its timer due, provided the clock did not step back
      between the two readings: the next pass fires the head of the list. */
  lemma ExpiredWaitFires(run: seq<Action>, later: Timespec, second: Timespec)
    requires Legal(INIT, run)
    requires var s := Exec(INIT, run);
             && s.thread.BlockedUntil? && s.core.timers != []
             && s.core.timers[0].due == s.thread.due
             && Millis(s.thread.first) <= Millis(s.thread.second)
             && Normalised(later) && Normalised(second)
             && TotalNs(s.thread.deadline) <= TotalNs(later)
    ensures var s := Exec(INIT, run);
            Decide(s.core, later, second) == Fire(s.core.timers[0])
  {
    Reachable(run);
    var th := Exec(INIT, run).thread;
    ExpiryMakesDue(th.first, th.second, th.due);
  }

  // ----- cancellation -----

  predicate NothingSince(id: int, before: seq<Event>, after: seq<Event>) {
    && before <= after
    && forall k :: |before| <= k < |after| ==> after[k].id != id
  }

  lemma FreedStays(s: Sched, id: int, a: Action)
    requires Enabled(s, a) && id in s.core.freed
    ensures id in Next(s, a).core.freed
  {
  }

  lemma FreedStep(s: Sched, id: int, a: Action)
    requires Inv(s) && Enabled(s, a) && id in s.core.freed
    ensures id in Next(s, a).core.freed
    ensures NothingSince(id, s.log, Next(s, a).log)
  {
    FreedStays(s, id, a);
    if a.Prepare? || a.Return? {
      SoleOwner(s, id);
    } else if a.Evaluate? && s.core.timers != [] {
      HeadIsAlone(s);
    }
  }

  /** Once a node is freed nothing further ever happens under its id. */
  lemma {:induction false} FreedIsSilent(s: Sched, id: int, run: seq<Action>)
    requires Inv(s) && Legal(s, run) && id in s.core.freed
    ensures NothingSince(id, s.log, Exec(s, run).log)
    decreases |run|
  {
    if run != [] {
      FreedStep(s, id, run[0]);
      InvStep(s, run[0]);
      FreedIsSilent(Next(s, run[0]), id, run[1..]);
    }
  }

  /** After `scheduler_cancel` has returned 0, no continuation of the run fires that id. */
  lemma CancelIsFinal(run: seq<Action>, pluginId: nat, id: int, more: seq<Action>)
    requires Legal(INIT, run) && CancelHits(Exec(INIT, run).core, pluginId, id)
    requires Legal(Next(Exec(INIT, run), CancelCall(pluginId, id)), more)
    ensures var s := Next(Exec(INIT, run), CancelCall(pluginId, id));
            NothingSince(id, s.log, Exec(s, more).log)
  {
    Reachable(run);
    InvStep(Exec(INIT, run), CancelCall(pluginId, id));
    FreedIsSilent(Next(Exec(INIT, run), CancelCall(pluginId, id)), id, more);
  }

  // ----- firing times -----

  /** The event before position `k` that last concerned `id`, found by its position. */
  lemma {:induction false} LastPosition(log: seq<Event>, id: int) returns (m: nat)
    requires LastOf(log, id) != []
    ensures m < |log| && [log[m]] == LastOf(log, id) && log[m].id == id
    ensures forall j :: m < j < |log| ==> log[j].id != id
  {
    m := |log| - 1;
    if log[m].id != id {
      m := LastPosition(log[..|log| - 1], id);
    }
  }

  lemma FiringAnswersArming(log: seq<Event>, k: nat) returns (m: nat)
    requires WellTimed(log) && k < |log| && log[k].Fired?
    ensures m < k && log[m].id == log[k].id && !log[m].Fired?
    ensures forall j :: m < j < k ==> log[j].id != log[k].id
    ensures DueOf(log[m]) <= log[k].at
    ensures log[m].reading + log[m].delay < TWO_POW_64 ==> log[m].reading + log[m].delay <= log[k].at
  {
    var past, e := log[..k], log[k];
    assert Justified(past, e);
    m := LastPosition(past, e.id);
    assert past[m] == log[m] && forall j :: m < j < k ==> past[j] == log[j];
  }

  /** Every firing answers an arming of the same timer with nothing of that timer in between,
      and happens at a reading no earlier than `reading + delay`, unless that sum overflowed. */
  lemma FiresNoEarlierThanArmed(run: seq<Action>, k: nat) returns (m: nat)
    requires Legal(INIT, run)
    requires var log := Exec(INIT, run).log; k < |log| && log[k].Fired?
    ensures var log := Exec(INIT, run).log;
            && m < k && log[m].id == log[k].id && !log[m].Fired?
            && (forall j :: m < j < k ==> log[j].id != log[k].id)
            && DueOf(log[m]) <= log[k].at
            && (log[m].reading + log[m].delay < TWO_POW_64 ==> log[m].reading + log[m].delay <= log[k].at)
  {
    Reachable(run);
    var log := Exec(INIT, run).log;
    assert WellTimed(log);
    m := FiringAnswersArming(log, k);
  }

  /** The registration is the first thing the log says of a timer. */
  lemma ArmedFirst(log: seq<Event>, a: nat, j: nat)
    requires WellTimed(log) && a < |log| && j < |log|
    requires log[a].Armed? && log[j].id == log[a].id
    ensures a <= j
  {
    assert forall i :: 0 <= i < a ==> log[i] in log[..a];
    assert Justified(log[..a], log[a]);
    LastOfMember(log[..a], log[a].id);
  }

  /** Only timers registered as repeating are re-armed, and with the interval registered. */
  lemma RearmedRepeats(log: seq<Event>, a: nat, m: nat)
    requires WellTimed(log) && a < |log| && m < |log|
    requires log[a].Armed? && log[m].Rearmed? && log[m].id == log[a].id
    ensures log[a].repeating && log[m].delay == log[a].delay
  {
    ArmedFirst(log, a, m);
    assert Justified(log[..m], log[m]);
    assert log[a] in log[..m];
  }

  lemma RefiringInLog(log: seq<Event>, i: nat, j: nat) returns (m: nat)
    requires WellTimed(log) && i < j < |log|
    requires log[i].Fired? && log[j].Fired? && log[i].id == log[j].id
    ensures i < m < j && log[m].Rearmed? && log[m].id == log[i].id
    ensures DueOf(log[m]) <= log[j].at
    ensures log[m].reading + log[m].delay < TWO_POW_64 ==> log[m].reading + log[m].delay <= log[j].at
  {
    m := FiringAnswersArming(log, j);
    if log[m].Armed? {
      ArmedFirst(log, m, i);
    }
  }

  /** Between two firings of one timer it was re-armed, with the interval it was registered with,
      and the second firing is at least that interval after the re-arming, unless that overflowed. */
  lemma RefiringNeedsRearming(run: seq<Action>, i: nat, j: nat) returns (m: nat)
    requires Legal(INIT, run)
    requires var log := Exec(INIT, run).log;
             i < j < |log| && log[i].Fired? && log[j].Fired? && log[i].id == log[j].id
    ensures var log := Exec(INIT, run).log;
            && i < m < j && log[m].Rearmed? && log[m].id == log[i].id
            && (log[m].reading + log[m].delay < TWO_POW_64 ==> log[m].reading + log[m].delay <= log[j].at)
            && forall a :: 0 <= a < |log| && log[a].Armed? && log[a].id == log[i].id ==>
                             log[a].repeating && log[a].delay == log[m].delay
  {
    Reachable(run);
    var log := Exec(INIT, run).log;
    m := RefiringInLog(log, i, j);
    forall a | 0 <= a < |log| && log[a].Armed? && log[a].id == log[i].id
      ensures log[a].repeating && log[a].delay == log[m].delay
    {
      RearmedRepeats(log, a, m);
    }
  }

  /** `now` has reached the moment `e` armed its timer for.  The sum of two 64-bit numbers is taken
      modulo 2^64. */
  predicate DelayOver(e: Event, now: Timespec)
    requires !e.Fired?
  {
    var sum := e.reading + e.delay;
    if sum < 0x1_0000_0000_0000_0000 then sum <= Millis(now) else sum - 0x1_0000_0000_0000_0000 <= Millis(now)
  }

  /** When the timer thread evaluates in a running scheduler, the head of the list fires if and only
      if its delay has passed since it was last armed or re-armed; and otherwise nothing fires. */
  lemma HeadFiresExactlyOnTime(run: seq<Action>, e: Event, first: Timespec, second: Timespec)
    requires Legal(INIT, run) && Enabled(Exec(INIT, run), Evaluate(first, second))
    requires var s := Exec(INIT, run);
             s.core.running && s.core.timers != [] && LastOf(s.log, s.core.timers[0].id) == [e]
    ensures !e.Fired?
    ensures var s := Exec(INIT, run);
            var h, s' := s.core.timers[0], Next(s, Evaluate(first, second));
            if DelayOver(e, first)
            then s'.thread == InFlight(h) && s'.log == s.log + [Fired(h.id, Millis(first), h.cb, h.user)]
            else Waiting(s'.thread) && s'.log == s.log && s'.core == s.core
  {
    Reachable(run);
    var s := Exec(INIT, run);
    var h := s.core.timers[0];
    assert ArmedFor(s.log, h);
    HeadDue(s, e);
  }

  lemma HeadDue(s: Sched, e: Event)
    requires Inv(s) && s.core.timers != [] && LastOf(s.log, s.core.timers[0].id) == [e]
    ensures !e.Fired?
    ensures s.core.timers[0].due ==
            var sum := e.reading + e.delay;
            if sum < 0x1_0000_0000_0000_0000 then sum else sum - 0x1_0000_0000_0000_0000
  {
    assert ArmedFor(s.log, s.core.timers[0]);
    LastOfMember(s.log, s.core.timers[0].id);
    var k :| 0 <= k < |s.log| && s.log[k] == e;
    WrapsOnce(e.reading + e.delay);
  }

  /** The log's registrations are the calls that were made: every `Armed` event has the arguments and
      the clock reading of one registration of the run. */
  ghost predicate CalledIn(run: seq<Action>, e: Event)
    requires e.Armed?
  {
    exists k :: 0 <= k < |run| && IsCall(run[k], e)
  }

  predicate IsCall(a: Action, e: Event)
    requires e.Armed?
  {
    && a.Prepare? && a.pluginId == e.pluginId && a.ms == e.delay && a.cb == e.cb && a.user == e.user
    && a.repeating == e.repeating && Millis(a.reading) == e.reading
  }

  lemma {:induction false} ArmedByACall(s: Sched, run: seq<Action>, k: nat)
    requires Legal(s, run) && |s.log| <= k < |Exec(s, run).log| && Exec(s, run).log[k].Armed?
    ensures CalledIn(run, Exec(s, run).log[k])
    decreases |run|
  {
    if run != [] {
      var s1, e := Next(s, run[0]), Exec(s, run).log[k];
      LogGrows(s1, run[1..]);
      if k < |s1.log| {
        assert s1.log[k] == e && IsCall(run[0], e);
      } else {
        ArmedByACall(s1, run[1..], k);
        var j :| 0 <= j < |run[1..]| && IsCall(run[1..][j], e);
        assert IsCall(run[j + 1], e);
      }
    }
  }

  lemma {:induction false} LogGrows(s: Sched, run: seq<Action>)
    requires Legal(s, run)
    ensures s.log <= Exec(s, run).log
    decreases |run|
  {
    if run != [] {
      LogGrows(Next(s, run[0]), run[1..]);
    }
  }

  /** What fires is what was registered: the log's one registration of the id names the callback
      and its argument, and every re-arming of it keeps the registered interval. */
  lemma FiresWhatWasRegistered(run: seq<Action>, a: nat, k: nat)
    requires Legal(INIT, run)
    requires var log := Exec(INIT, run).log;
             && a < |log| && k < |log| && log[a].Armed? && log[k].id == log[a].id
    ensures var log := Exec(INIT, run).log;
            && a <= k
            && (log[k].Armed? ==> a == k)
            && (log[k].Fired? ==> log[k].cb == log[a].cb && log[k].user == log[a].user)
            && (log[k].Rearmed? ==> log[a].repeating && log[k].delay == log[a].delay)
  {
    Reachable(run);
    var log := Exec(INIT, run).log;
    ArmedFirst(log, a, k);
    if log[k].Armed? {
      ArmedFirst(log, k, a);
    } else {
      assert log[a] in log[..k];
      assert Justified(log[..k], log[k]);
    }
  }

  /** A timer registered as one-shot fires at most once. */
  lemma OneShotFiresOnce(run: seq<Action>, a: nat, i: nat, j: nat)
    requires Legal(INIT, run)
    requires var log := Exec(INIT, run).log;
             && a < |log| && i < |log| && j < |log|
             && log[a].Armed? && !log[a].repeating
             && log[i].Fired? && log[j].Fired?
             && log[i].id == log[j].id == log[a].id
    ensures i == j
  {
    Reachable(run);
    if i != j {
      var log := Exec(INIT, run).log;
      var m := RefiringInLog(log, if i < j then i else j, if i < j then j else i);
      RearmedRepeats(log, a, m);
    }
  }

  // ----- shutdown -----

  /** How many more passes the thread can make once the scheduler is stopping. */
  function PassesLeft(th: Thread): nat {
    match th
    case Exited => 0
    case Evaluating => 1
    case InFlight(_) => 2
    case _ => 1
  }

  predicate IsThreadStep(a: Action) {
    a.Evaluate? || a.Return?
  }

  function ThreadSteps(run: seq<Action>): nat {
    if run == [] then 0 else (if IsThreadStep(run[0]) then 1 else 0) + ThreadSteps(run[1..])
  }

  lemma StoppingStep(s: Sched, a: Action)
    requires Inv(s) && !s.phase.Up? && Enabled(s, a)
    ensures !Next(s, a).phase.Up?
    ensures PassesLeft(Next(s, a).thread) + (if IsThreadStep(a) then 1 else 0) <= PassesLeft(s.thread)
    ensures NoFiring(s.log, Next(s, a).log)
  {
  }

  predicate NoFiring(before: seq<Event>, after: seq<Event>) {
    && before <= after
    && forall k :: |before| <= k < |after| ==> !after[k].Fired?
  }

  /** After the shutdown flag is set no callback starts, and the thread exits within two of its own
      steps: it is never asleep, and each step it takes brings it closer. */
  lemma {:induction false} ShutdownStopsTheThread(s: Sched, run: seq<Action>)
    requires Inv(s) && !s.phase.Up? && Legal(s, run)
    ensures NoFiring(s.log, Exec(s, run).log)
    ensures !Waiting(Exec(s, run).thread)
    ensures ThreadSteps(run) + PassesLeft(Exec(s, run).thread) <= PassesLeft(s.thread) <= 2
    ensures Exec(s, run).thread.Exited? || IsThreadStepEnabled(Exec(s, run))
    decreases |run|
  {
    if run == [] {
      var now := Timespec(0, 0);
      assert Enabled(s, Evaluate(now, now)) || Enabled(s, Return(false, now)) || s.thread.Exited?;
    } else {
      StoppingStep(s, run[0]);
      InvStep(s, run[0]);
      ShutdownStopsTheThread(Next(s, run[0]), run[1..]);
    }
  }

  ghost predicate IsThreadStepEnabled(s: Sched) {
    exists a :: IsThreadStep(a) && Enabled(s, a)
  }
}

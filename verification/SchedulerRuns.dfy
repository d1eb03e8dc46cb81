/** The scheduler as a transition system: one timer thread, any number of registering, cancelling
    and shutting-down threads, every interleaving of their critical sections.

    A run is a sequence of actions.  An action names the critical section taken and everything it
    could not predict: clock readings, which registering thread gets the lock, whether the
    callback crashed. */
module SchedulerRuns {
  import opened Clock
  import opened TimerOrder
  import opened SchedulerCore

  /** Where the timer thread is.  A timed wait remembers the two readings its deadline came from. */
  datatype Thread =
    | Evaluating
    | Blocked
    | BlockedUntil(due: nat, first: Timespec, second: Timespec, deadline: Timespec)
    | InFlight(timer: Timer)
    | Exited

  datatype Phase = Up | Stopping | Cleaned

  /** What happened to a timer.  `Armed` is a registration, with the arguments of its call, and
      `Rearmed` a re-insertion: the due time becomes `reading + delay`, truncated to 64 bits.
      `Fired` is the start of a callback, with what was called. */
  datatype Event =
    | Armed(id: int, reading: nat, delay: nat, pluginId: nat, cb: nat, user: nat, repeating: bool)
    | Rearmed(id: int, reading: nat, delay: nat)
    | Fired(id: int, at: nat, cb: nat, user: nat)

  /** `pending` holds the nodes of registering threads that have not taken the lock yet, and
      `returning` the ids of nodes whose registering threads have given it up again but are still
      to read `t->id` for their caller. */
  datatype Sched = Sched(
    core: Core, pending: seq<Timer>, returning: seq<int>, thread: Thread, phase: Phase, log: seq<Event>)

  datatype Action =
    | Prepare(pluginId: nat, ms: nat, cb: nat, user: nat, repeating: bool, reading: Timespec)
    | Enlist(k: nat)
    | ReturnId(k: nat)
    | CancelCall(pluginId: nat, id: int)
    | Evaluate(first: Timespec, second: Timespec)
    | Return(crashed: bool, reading: Timespec)
    | WakeUp
    | Shutdown
    | CleanupCall

  const INIT := Sched(Core([], 1, true, []), [], [], Evaluating, Up, [])

  predicate Waiting(th: Thread) {
    th.Blocked? || th.BlockedUntil?
  }

  /** `pthread_cond_broadcast`: a waiting thread will re-evaluate once it has the lock. */
  function Broadcast(th: Thread): Thread {
    if Waiting(th) then Evaluating else th
  }

  predicate Enabled(s: Sched, a: Action) {
    match a
    case Prepare(_, ms, cb, _, repeating, reading) =>
      Accepts(ms, cb, repeating) && ms < TWO_POW_64 && IsReading(reading)
    case Enlist(k) => k < |s.pending|
    case ReturnId(k) => k < |s.returning|
    case CancelCall(_, _) => true
    case Evaluate(first, second) => s.thread.Evaluating? && IsReading(first) && IsReading(second)
    case Return(_, reading) => s.thread.InFlight? && IsReading(reading)
    case WakeUp => Waiting(s.thread)
    case Shutdown => s.phase.Up?
    case CleanupCall => s.phase.Stopping? && s.thread.Exited?
  }

  function Next(s: Sched, a: Action): Sched
    requires Enabled(s, a)
  {
    match a
    case Prepare(pluginId, ms, cb, user, repeating, reading) =>
      var t := NewTimer(s.core, pluginId, ms, cb, user, repeating, reading);
      s.(core := TakeId(s.core), pending := s.pending + [t],
         log := s.log + [Armed(t.id, Millis(reading), ms, pluginId, cb, user, repeating)])
    case Enlist(k) =>
      s.(core := SchedulerCore.Publish(s.core, s.pending[k]),
         pending := s.pending[..k] + s.pending[k + 1..],
         returning := s.returning + [s.pending[k].id],
         thread := Broadcast(s.thread))
    case ReturnId(k) =>
      s.(returning := s.returning[..k] + s.returning[k + 1..])
    case CancelCall(pluginId, id) =>
      s.(core := SchedulerCore.Cancel(s.core, pluginId, id))
    case Evaluate(first, second) =>
      var v := Decide(s.core, first, second);
      var s' := s.(core := AfterDecide(s.core, v));
      (match v
       case Leave => s'.(thread := Exited)
       case WaitForever => s'.(thread := Blocked)
       case WaitUntil(due, deadline) => s'.(thread := BlockedUntil(due, first, second, deadline))
       case Fire(t) => s'.(thread := InFlight(t), log := s.log + [Fired(t.id, Millis(first), t.cb, t.user)]))
    case Return(_, reading) =>
      var t := s.thread.timer;
      s.(core := Finish(s.core, t, reading),
         thread := Evaluating,
         log := if t.repeating && s.core.running
                then s.log + [Rearmed(t.id, Millis(reading), t.interval)]
                else s.log)
    case WakeUp => s.(thread := Evaluating)
    case Shutdown =>
      s.(core := StopRunning(s.core), thread := Broadcast(s.thread), phase := Stopping)
    case CleanupCall => s.(core := Cleanup(s.core), phase := Cleaned)
  }

  predicate Legal(s: Sched, run: seq<Action>)
    decreases |run|
  {
    run != [] ==> Enabled(s, run[0]) && Legal(Next(s, run[0]), run[1..])
  }

  function Exec(s: Sched, run: seq<Action>): Sched
    requires Legal(s, run)
    decreases |run|
  {
    if run == [] then s else Exec(Next(s, run[0]), run[1..])
  }

  // ----- the invariant -----

  /** The node whose callback is running. */
  function Aloft(th: Thread): multiset<int> {
    if th.InFlight? then multiset{th.timer.id} else multiset{}
  }

  /** Who owns which node: registering threads, the list, the running callback, the allocator. */
  function Owners(s: Sched): multiset<int> {
    multiset(Ids(s.pending)) + multiset(Ids(s.core.timers))
    + Aloft(s.thread)
    + multiset(s.core.freed)
  }

  /** Every id handed out has exactly one owner, and no other id has any. */
  ghost predicate Conserved(s: Sched) {
    OneEach(Owners(s), s.core.nextId)
  }

  ghost predicate OneEach(m: multiset<int>, limit: int) {
    && 1 <= limit
    && forall id :: m[id] == if 1 <= id < limit then 1 else 0
  }

  /** Whenever the thread sleeps with no wake-up on its way, it has nothing to do yet. */
  ghost predicate NoLostWakeup(s: Sched) {
    && (Waiting(s.thread) ==> s.core.running)
    && (s.thread.Blocked? ==> s.core.timers == [])
    && (s.thread.BlockedUntil? && s.core.timers != [] ==> s.thread.due <= s.core.timers[0].due)
  }

  /** The recorded deadline is the one the two readings give. */
  ghost predicate DeadlineExact(th: Thread) {
    th.BlockedUntil? ==>
      && Normalised(th.first) && Normalised(th.second)
      && Millis(th.first) < th.due
      && th.deadline == Deadline(th.second, th.due - Millis(th.first))
  }

  ghost predicate PhaseConsistent(s: Sched) {
    && (s.core.running <==> s.phase.Up?)
    && (s.thread.Exited? ==> !s.phase.Up?)
    && (s.phase.Cleaned? ==> s.thread.Exited?)
  }

  /** The last thing that happened to `id`: one event, or none. */
  function LastOf(log: seq<Event>, id: int): seq<Event> {
    if log == [] then []
    else if log[|log| - 1].id == id then [log[|log| - 1]]
    else LastOf(log[..|log| - 1], id)
  }

  function DueOf(e: Event): nat
    requires !e.Fired?
  {
    Wrap64(e.reading + e.delay)
  }

  /** `t` carries the due time its last arming gave it. */
  ghost predicate ArmedFor(log: seq<Event>, t: Timer) {
    var last := LastOf(log, t.id);
    && last != [] && !last[0].Fired? && t.due == DueOf(last[0])
    && KindRecorded(log, t)
  }

  /** `t` is the timer the registration `e` asked for. */
  predicate AsRegistered(e: Event, t: Timer)
    requires e.Armed?
  {
    && t.pluginId == e.pluginId && t.cb == e.cb && t.user == e.user && t.repeating == e.repeating
    && (e.repeating ==> t.interval == e.delay)
  }

  /** The log remembers how `t` was registered. */
  ghost predicate KindRecorded(log: seq<Event>, t: Timer) {
    forall e :: e in log && e.id == t.id && e.Armed? ==> AsRegistered(e, t)
  }

  /** Event `e`, coming after `past`, is justified by it. */
  ghost predicate Justified(past: seq<Event>, e: Event) {
    var last := LastOf(past, e.id);
    match e
    case Armed(_, _, _, _, _, _, _) => last == []
    case Rearmed(_, _, delay) =>
      && last != [] && last[0].Fired?
      && forall b :: b in past && b.id == e.id && b.Armed? ==> b.repeating && b.delay == delay
    case Fired(_, at, cb, user) =>
      && last != [] && !last[0].Fired? && DueOf(last[0]) <= at
      && forall b :: b in past && b.id == e.id && b.Armed? ==> b.cb == cb && b.user == user
  }

  /** A timer is armed once, fires only after an arming that nothing has used up, at a reading
      that has reached the due time set then, with the callback it was registered with, and is
      re-armed only if it repeats, at the interval it was registered with. */
  ghost predicate WellTimed(log: seq<Event>) {
    forall k :: 0 <= k < |log| ==> Justified(log[..k], log[k])
  }

  ghost predicate LogConsistent(s: Sched) {
    LogFits(s.log, s.core.timers, s.pending, s.thread, s.core.nextId)
  }

  /** The log agrees with where the timers are. */
  ghost predicate LogFits(log: seq<Event>, listed: seq<Timer>, pending: seq<Timer>, th: Thread, nextId: int) {
    && WellTimed(log)
    && AllArmed(log, listed) && AllArmed(log, pending)
    && (th.InFlight? ==> Aired(log, th.timer))
    && (forall e :: e in log ==> 1 <= e.id < nextId)
  }

  ghost predicate AllArmed(log: seq<Event>, l: seq<Timer>) {
    forall t :: t in l ==> ArmedFor(log, t)
  }

  /** `t` has used up its last arming. */
  ghost predicate Aired(log: seq<Event>, t: Timer) {
    var last := LastOf(log, t.id);
    last != [] && last[0].Fired? && KindRecorded(log, t)
  }

  /** A node whose registering thread is past its critical section is no longer pending. */
  ghost predicate ReturningEnlisted(s: Sched) {
    forall k :: 0 <= k < |s.returning| ==>
                  && 1 <= s.returning[k] < s.core.nextId
                  && forall t :: t in s.pending ==> t.id != s.returning[k]
  }

  ghost predicate ShortIntervals(l: seq<Timer>) {
    forall t :: t in l ==> t.interval < TWO_POW_64
  }

  /** Delays and the readings they are added to are 64-bit numbers. */
  ghost predicate ShortDelays(s: Sched) {
    && ShortIntervals(s.core.timers) && ShortIntervals(s.pending)
    && (s.thread.InFlight? ==> s.thread.timer.interval < TWO_POW_64)
    && forall k :: 0 <= k < |s.log| && !s.log[k].Fired? ==>
                  s.log[k].reading < TWO_POW_64 && s.log[k].delay < TWO_POW_64
  }

  ghost predicate Inv(s: Sched) {
    && Sorted(s.core.timers)
    && Conserved(s)
    && NoLostWakeup(s)
    && DeadlineExact(s.thread)
    && PhaseConsistent(s)
    && LogConsistent(s)
    && ReturningEnlisted(s)
    && ShortDelays(s)
  }

  // ----- conservation -----

  lemma OwnersPrepare(s: Sched, a: Action)
    requires Enabled(s, a) && a.Prepare?
    ensures Owners(Next(s, a)) == Owners(s) + multiset{s.core.nextId}
  {
    var t := NewTimer(s.core, a.pluginId, a.ms, a.cb, a.user, a.repeating, a.reading);
    IdsConcat(s.pending, [t]);
    assert Ids([t]) == [s.core.nextId];
    assert Ids(Next(s, a).pending) == Ids(s.pending) + [s.core.nextId];
  }

  /** One token moves from the first holder to the second. */
  lemma Handed<T>(a: multiset<T>, b: multiset<T>, c: multiset<T>, d: multiset<T>, x: multiset<T>)
    ensures (a + x) + b + c + d == a + (b + x) + c + d
  {
  }

  lemma OwnersEnlist(s: Sched, a: Action)
    requires Enabled(s, a) && a.Enlist?
    ensures Owners(Next(s, a)) == Owners(s)
  {
    var p, k, s' := s.pending, a.k, Next(s, a);
    var x := multiset{p[k].id};
    assert p[..k] + [p[k]] + p[k + 1..] == p;
    IdsSplice(p[..k], p[k], p[k + 1..]);
    assert multiset(Ids(p)) == multiset(Ids(s'.pending)) + x;
    InsertCounts(s.core.timers, p[k]);
    assert multiset(Ids(s'.core.timers)) == multiset(Ids(s.core.timers)) + x;
    assert Aloft(s'.thread) == Aloft(s.thread) && s'.core.freed == s.core.freed;
    Handed(multiset(Ids(s'.pending)), multiset(Ids(s.core.timers)), Aloft(s.thread), multiset(s.core.freed), x);
  }

  lemma OwnersCancel(s: Sched, a: Action)
    requires Enabled(s, a) && a.CancelCall?
    ensures Owners(Next(s, a)) == Owners(s)
  {
    if CancelHits(s.core, a.pluginId, a.id) {
      RemoveCounts(s.core.timers, a.pluginId, a.id);
      assert multiset(s.core.freed + [a.id]) == multiset(s.core.freed) + multiset{a.id};
    }
  }

  lemma OwnersEvaluate(s: Sched, a: Action)
    requires Enabled(s, a) && a.Evaluate?
    ensures Owners(Next(s, a)) == Owners(s)
  {
    var s' := Next(s, a);
    assert s'.pending == s.pending && s'.core.freed == s.core.freed;
    if Decide(s.core, a.first, a.second).Fire? {
      HeadCounts(s.core.timers);
      assert s'.core.timers == s.core.timers[1..] && s'.thread == InFlight(s.core.timers[0]);
    }
  }

  lemma HeadCounts(l: seq<Timer>)
    requires l != []
    ensures multiset(Ids(l)) == multiset(Ids(l[1..])) + multiset{l[0].id}
  {
    assert [] + [l[0]] + l[1..] == l && [] + l[1..] == l[1..];
    IdsSplice([], l[0], l[1..]);
  }

  lemma OwnersReturn(s: Sched, a: Action)
    requires Enabled(s, a) && a.Return?
    ensures Owners(Next(s, a)) == Owners(s)
  {
    var t := s.thread.timer;
    if t.repeating && s.core.running {
      InsertCounts(s.core.timers, Rearm(t, a.reading));
    } else {
      assert multiset(s.core.freed + [t.id]) == multiset(s.core.freed) + multiset{t.id};
    }
  }

  lemma OwnersCleanup(s: Sched, a: Action)
    requires Enabled(s, a) && a.CleanupCall?
    ensures Owners(Next(s, a)) == Owners(s)
  {
  }

  lemma OwnersSignal(s: Sched, a: Action)
    requires Enabled(s, a) && (a.WakeUp? || a.Shutdown? || a.ReturnId?)
    ensures Owners(Next(s, a)) == Owners(s)
  {
  }

  /** No step creates, loses or duplicates a node, except that `Prepare` allocates one. */
  lemma OwnersStep(s: Sched, a: Action)
    requires Enabled(s, a)
    ensures a.Prepare? ==> Owners(Next(s, a)) == Owners(s) + multiset{s.core.nextId}
    ensures !a.Prepare? ==> Owners(Next(s, a)) == Owners(s)
  {
    match a {
      case Prepare(_, _, _, _, _, _) => OwnersPrepare(s, a);
      case Enlist(_) => OwnersEnlist(s, a);
      case ReturnId(_) => OwnersSignal(s, a);
      case CancelCall(_, _) => OwnersCancel(s, a);
      case Evaluate(_, _) => OwnersEvaluate(s, a);
      case Return(_, _) => OwnersReturn(s, a);
      case WakeUp => OwnersSignal(s, a);
      case Shutdown => OwnersSignal(s, a);
      case CleanupCall => OwnersCleanup(s, a);
    }
  }

  lemma OneEachGrows(m: multiset<int>, limit: int)
    requires OneEach(m, limit)
    ensures OneEach(m + multiset{limit}, limit + 1)
  {
  }

  lemma NextIdStep(s: Sched, a: Action)
    requires Enabled(s, a)
    ensures Next(s, a).core.nextId == s.core.nextId + if a.Prepare? then 1 else 0
  {
  }

  lemma ConservedStep(s: Sched, a: Action)
    requires Enabled(s, a) && Conserved(s)
    ensures Conserved(Next(s, a))
  {
    OwnersStep(s, a);
    NextIdStep(s, a);
    OneEachGrows(Owners(s), s.core.nextId);
  }

  lemma Listed(l: seq<Timer>, t: Timer)
    requires t in l
    ensures multiset(Ids(l))[t.id] >= 1
  {
  }

  // ----- the event log -----

  lemma {:induction false} LastOfMember(log: seq<Event>, id: int)
    ensures LastOf(log, id) == [] <==> forall e :: e in log ==> e.id != id
    ensures LastOf(log, id) != [] ==> LastOf(log, id)[0] in log && LastOf(log, id)[0].id == id
  {
    if log != [] {
      var n := |log| - 1;
      assert log == log[..n] + [log[n]];
      LastOfMember(log[..n], id);
    }
  }

  lemma LastOfAppend(log: seq<Event>, e: Event, id: int)
    ensures LastOf(log + [e], id) == if e.id == id then [e] else LastOf(log, id)
  {
  }

  lemma WellTimedAppend(log: seq<Event>, e: Event)
    requires WellTimed(log) && Justified(log, e)
    ensures WellTimed(log + [e])
  {
    var log' := log + [e];
    forall k | 0 <= k < |log'|
      ensures Justified(log'[..k], log'[k])
    {
      if k < |log| {
        assert log'[..k] == log[..k];
      } else {
        assert log'[..k] == log;
      }
    }
  }

  /** An event about another timer leaves what the log says of the rest alone. */
  lemma AllArmedAppend(log: seq<Event>, e: Event, l: seq<Timer>)
    requires AllArmed(log, l) && forall t :: t in l ==> t.id != e.id
    ensures AllArmed(log + [e], l)
  {
  }

  /** The ids in flight and in the free history occur nowhere else. */
  lemma SoleOwner(s: Sched, id: int)
    requires Conserved(s)
    requires id in Aloft(s.thread) || id in s.core.freed || id >= s.core.nextId
    ensures forall t :: t in s.core.timers || t in s.pending ==> t.id != id
    ensures id in s.core.freed ==> id !in Aloft(s.thread) && id < s.core.nextId
  {
    assert Owners(s)[id] <= 1;
    assert id in s.core.freed ==> multiset(s.core.freed)[id] >= 1;
    forall t | t in s.core.timers || t in s.pending
      ensures t.id != id
    {
      if t.id == id {
        if t in s.core.timers {
          Listed(s.core.timers, t);
        } else {
          Listed(s.pending, t);
        }
      }
    }
  }

  /** The head of the list shares its id with no other node. */
  lemma HeadIsAlone(s: Sched)
    requires Conserved(s) && s.core.timers != []
    ensures forall u :: u in s.core.timers[1..] || u in s.pending ==> u.id != s.core.timers[0].id
    ensures s.core.timers[0].id !in s.core.freed
  {
    var l := s.core.timers;
    var h := l[0].id;
    assert l == [l[0]] + l[1..];
    IdsConcat([l[0]], l[1..]);
    assert Ids([l[0]]) == [h];
    assert Owners(s)[h] <= 1;
    assert h in s.core.freed ==> multiset(s.core.freed)[h] >= 1;
    forall u | u in l[1..] || u in s.pending
      ensures u.id != h
    {
      if u in l[1..] {
        Listed(l[1..], u);
      } else {
        Listed(s.pending, u);
      }
    }
  }

  lemma RegistrationJustified(log: seq<Event>, t: Timer, e: Event)
    requires e.Armed? && e.id == t.id && AsRegistered(e, t) && t.due == DueOf(e)
    requires WellTimed(log) && forall b :: b in log ==> b.id != t.id
    ensures WellTimed(log + [e]) && ArmedFor(log + [e], t)
  {
    LastOfMember(log, t.id);
    WellTimedAppend(log, e);
    LastOfAppend(log, e, t.id);
  }

  lemma PrepareLog(s: Sched, a: Action)
    requires a.Prepare? && Enabled(s, a) && Conserved(s) && LogConsistent(s)
    ensures LogConsistent(Next(s, a))
  {
    var t := NewTimer(s.core, a.pluginId, a.ms, a.cb, a.user, a.repeating, a.reading);
    var e := Armed(t.id, Millis(a.reading), a.ms, a.pluginId, a.cb, a.user, a.repeating);
    RegistrationJustified(s.log, t, e);
    SoleOwner(s, t.id);
    AllArmedAppend(s.log, e, s.core.timers);
    AllArmedAppend(s.log, e, s.pending);
    if s.thread.InFlight? {
      assert Aired(s.log, s.thread.timer);
      LastOfMember(s.log, s.thread.timer.id);
      LastOfAppend(s.log, e, s.thread.timer.id);
    }
  }

  lemma EnlistLog(s: Sched, a: Action)
    requires a.Enlist? && Enabled(s, a) && LogConsistent(s)
    ensures LogConsistent(Next(s, a))
  {
    InsertMembers(s.core.timers, s.pending[a.k]);
  }

  lemma CancelLog(s: Sched, a: Action)
    requires a.CancelCall? && Enabled(s, a) && LogConsistent(s)
    ensures LogConsistent(Next(s, a))
  {
    if CancelHits(s.core, a.pluginId, a.id) {
      RemoveCounts(s.core.timers, a.pluginId, a.id);
    }
  }

  lemma FireLog(s: Sched, at: nat)
    requires Conserved(s) && LogConsistent(s)
    requires s.core.timers != [] && s.core.timers[0].due <= at
    ensures var t := s.core.timers[0];
            LogFits(s.log + [Fired(t.id, at, t.cb, t.user)], s.core.timers[1..], s.pending, InFlight(t),
                    s.core.nextId)
  {
    var t := s.core.timers[0];
    var e := Fired(t.id, at, t.cb, t.user);
    assert ArmedFor(s.log, t);
    LastOfMember(s.log, t.id);
    WellTimedAppend(s.log, e);
    LastOfAppend(s.log, e, t.id);
    HeadIsAlone(s);
    AllArmedAppend(s.log, e, s.core.timers[1..]);
    AllArmedAppend(s.log, e, s.pending);
  }

  lemma AllArmedInsert(log: seq<Event>, l: seq<Timer>, t: Timer)
    requires AllArmed(log, l) && ArmedFor(log, t)
    ensures AllArmed(log, Insert(l, t))
  {
  }

  /** Later events of other kinds do not touch what the registration recorded. */
  lemma KindKept(log: seq<Event>, e: Event, t: Timer, t': Timer)
    requires KindRecorded(log, t) && !e.Armed? && t' == t.(due := t'.due)
    ensures KindRecorded(log + [e], t')
  {
    forall b | b in log + [e] && b.id == t'.id && b.Armed?
      ensures AsRegistered(b, t')
    {
      assert b in log;
    }
  }

  lemma RearmJustified(log: seq<Event>, t: Timer, e: Event)
    requires WellTimed(log) && Aired(log, t) && t.repeating
    requires e.Rearmed? && e.id == t.id && e.delay == t.interval
    ensures WellTimed(log + [e])
  {
    forall b | b in log && b.id == e.id && b.Armed?
      ensures b.repeating && b.delay == e.delay
    {
      assert AsRegistered(b, t);
    }
    WellTimedAppend(log, e);
  }

  lemma RearmArms(log: seq<Event>, t: Timer, e: Event, t': Timer)
    requires Aired(log, t) && t' == t.(due := t'.due)
    requires e.Rearmed? && e.id == t.id && t'.due == DueOf(e)
    ensures ArmedFor(log + [e], t')
  {
    LastOfAppend(log, e, t.id);
    KindKept(log, e, t, t');
  }

  lemma RearmLog(s: Sched, reading: Timespec)
    requires Conserved(s) && LogConsistent(s)
    requires s.thread.InFlight? && s.thread.timer.repeating
    ensures var t := s.thread.timer;
            LogFits(s.log + [Rearmed(t.id, Millis(reading), t.interval)],
                    Insert(s.core.timers, Rearm(t, reading)), s.pending, Evaluating, s.core.nextId)
  {
    var t := s.thread.timer;
    var e := Rearmed(t.id, Millis(reading), t.interval);
    RearmJustified(s.log, t, e);
    RearmArms(s.log, t, e, Rearm(t, reading));
    LastOfMember(s.log, t.id);
    SoleOwner(s, t.id);
    AllArmedAppend(s.log, e, s.core.timers);
    AllArmedAppend(s.log, e, s.pending);
    AllArmedInsert(s.log + [e], s.core.timers, Rearm(t, reading));
  }

  lemma EvaluateLog(s: Sched, a: Action)
    requires a.Evaluate? && Enabled(s, a) && Conserved(s) && LogConsistent(s)
    ensures LogConsistent(Next(s, a))
  {
    var s' := Next(s, a);
    assert s'.pending == s.pending && s'.core.nextId == s.core.nextId;
    if Decide(s.core, a.first, a.second).Fire? {
      FireLog(s, Millis(a.first));
    } else {
      assert s'.log == s.log && s'.core.timers == s.core.timers && !s'.thread.InFlight?;
    }
  }

  lemma ReturnLog(s: Sched, a: Action)
    requires a.Return? && Enabled(s, a) && Conserved(s) && LogConsistent(s)
    ensures LogConsistent(Next(s, a))
  {
    if s.thread.timer.repeating && s.core.running {
      RearmLog(s, a.reading);
    }
  }

  lemma LogStep(s: Sched, a: Action)
    requires Enabled(s, a) && Conserved(s) && LogConsistent(s)
    ensures LogConsistent(Next(s, a))
  {
    match a {
      case Prepare(_, _, _, _, _, _) => PrepareLog(s, a);
      case Enlist(_) => EnlistLog(s, a);
      case ReturnId(_) =>
      case CancelCall(_, _) => CancelLog(s, a);
      case Evaluate(_, _) => EvaluateLog(s, a);
      case Return(_, _) => ReturnLog(s, a);
      case WakeUp =>
      case Shutdown =>
      case CleanupCall =>
    }
  }

  // ----- waking and ordering -----

  lemma OrderStep(s: Sched, a: Action)
    requires Enabled(s, a) && Sorted(s.core.timers)
    ensures Sorted(Next(s, a).core.timers)
  {
    match a {
      case Enlist(k) => InsertKeepsSorted(s.core.timers, s.pending[k]);
      case CancelCall(pluginId, id) => RemoveKeepsSorted(s.core.timers, pluginId, id);
      case Return(_, reading) => InsertKeepsSorted(s.core.timers, Rearm(s.thread.timer, reading));
      case _ =>
    }
  }

  lemma WakeStep(s: Sched, a: Action)
    requires Enabled(s, a) && Sorted(s.core.timers)
    requires NoLostWakeup(s) && DeadlineExact(s.thread) && PhaseConsistent(s)
    ensures NoLostWakeup(Next(s, a)) && DeadlineExact(Next(s, a).thread) && PhaseConsistent(Next(s, a))
  {
  }

  /** No two registering threads hold the same node. */
  lemma PendingApart(s: Sched, k: nat)
    requires Conserved(s) && k < |s.pending|
    ensures forall t :: t in s.pending[..k] + s.pending[k + 1..] ==> t.id != s.pending[k].id
    ensures 1 <= s.pending[k].id < s.core.nextId
  {
    var p, rest := s.pending, s.pending[..k] + s.pending[k + 1..];
    assert p[..k] + [p[k]] + p[k + 1..] == p;
    IdsSplice(p[..k], p[k], p[k + 1..]);
    assert 1 <= Owners(s)[p[k].id] <= 1;
    forall t | t in rest
      ensures t.id != p[k].id
    {
      Listed(rest, t);
    }
  }

  lemma ReturningStep(s: Sched, a: Action)
    requires Enabled(s, a) && Conserved(s) && ReturningEnlisted(s)
    ensures ReturningEnlisted(Next(s, a))
  {
    var s' := Next(s, a);
    if a.Enlist? {
      PendingApart(s, a.k);
      assert forall t :: t in s'.pending ==> t in s.pending;
    }
  }

  lemma DelaysStep(s: Sched, a: Action)
    requires Enabled(s, a) && ShortDelays(s)
    ensures ShortDelays(Next(s, a))
  {
    match a {
      case Enlist(k) => InsertMembers(s.core.timers, s.pending[k]);
      case CancelCall(pluginId, id) =>
        if CancelHits(s.core, pluginId, id) {
          RemoveCounts(s.core.timers, pluginId, id);
        }
      case Return(_, reading) => InsertMembers(s.core.timers, Rearm(s.thread.timer, reading));
      case _ =>
    }
  }

  lemma InvStep(s: Sched, a: Action)
    requires Enabled(s, a) && Inv(s)
    ensures Inv(Next(s, a))
  {
    OrderStep(s, a);
    ConservedStep(s, a);
    WakeStep(s, a);
    LogStep(s, a);
    ReturningStep(s, a);
    DelaysStep(s, a);
  }

  /** Every state of every run keeps the invariant. */
  lemma {:induction false} InvRun(s: Sched, run: seq<Action>)
    requires Inv(s) && Legal(s, run)
    ensures Inv(Exec(s, run))
    decreases |run|
  {
    if run != [] {
      InvStep(s, run[0]);
      InvRun(Next(s, run[0]), run[1..]);
    }
  }

  lemma InvInit()
    ensures Inv(INIT)
  {
  }
}

/** What can still happen to a timer, from any state of any run: exactly which cancels miss, exactly
    which timers can still fire, exactly which firings come too early, and exactly when a
    registering thread reads a node that is gone. */
module SchedulerContinuations {
  import opened Clock
  import opened TimerOrder
  import opened SchedulerCore
  import opened SchedulerRuns
  import opened SchedulerTheorems

  // ----- where a registered timer is -----

  predicate IsPending(s: Sched, id: int) {
    exists k :: 0 <= k < |s.pending| && s.pending[k].id == id
  }

  predicate IsListed(s: Sched, id: int) {
    exists k :: 0 <= k < |s.core.timers| && s.core.timers[k].id == id
  }

  predicate IsAloft(s: Sched, id: int) {
    s.thread.InFlight? && s.thread.timer.id == id
  }

  predicate IsFreed(s: Sched, id: int) {
    id in s.core.freed
  }

  lemma CountedOnce(l: seq<Timer>, id: int)
    ensures multiset(Ids(l))[id] > 0 <==> exists k :: 0 <= k < |l| && l[k].id == id
  {
    assert multiset(Ids(l))[id] > 0 <==> id in Ids(l);
    forall k | 0 <= k < |l|
      ensures Ids(l)[k] == l[k].id && Ids(l)[k] in Ids(l)
    {
    }
  }

  /** A registered timer is in one place and no other. */
  lemma OnePlace(s: Sched, id: int)
    requires Inv(s) && 1 <= id < s.core.nextId
    ensures IsPending(s, id) || IsListed(s, id) || IsAloft(s, id) || IsFreed(s, id)
    ensures IsPending(s, id) ==> !IsListed(s, id) && !IsAloft(s, id) && !IsFreed(s, id)
    ensures IsListed(s, id) ==> !IsAloft(s, id) && !IsFreed(s, id)
    ensures IsAloft(s, id) ==> !IsFreed(s, id)
  {
    CountedOnce(s.pending, id);
    CountedOnce(s.core.timers, id);
    assert Owners(s)[id] == 1;
    assert multiset(s.core.freed)[id] > 0 <==> id in s.core.freed;
  }

  /** The log's registration of an id names the plugin that owns its node. */
  lemma OwnerRecorded(s: Sched, e: Event, t: Timer)
    requires Inv(s) && e in s.log && e.Armed? && t.id == e.id
    requires t in s.core.timers || t in s.pending || (s.thread.InFlight? && t == s.thread.timer)
    ensures AsRegistered(e, t)
  {
    assert t in s.core.timers || t in s.pending ==> ArmedFor(s.log, t);
    assert KindRecorded(s.log, t);
  }

  // ----- cancellation -----

  /** Only the plugin that registered a timer can cancel it. */
  lemma OnlyTheOwnerCancels(run: seq<Action>, e: Event, pluginId: nat)
    requires Legal(INIT, run) && e in Exec(INIT, run).log && e.Armed?
    requires CancelHits(Exec(INIT, run).core, pluginId, e.id)
    ensures pluginId == e.pluginId
  {
    Reachable(run);
    var s := Exec(INIT, run);
    var i :| 0 <= i < |s.core.timers| && Owns(s.core.timers[i], pluginId, e.id);
    OwnerRecorded(s, e, s.core.timers[i]);
  }

  lemma HitsExactlyListed(s: Sched, e: Event)
    requires Inv(s) && e in s.log && e.Armed?
    ensures CancelHits(s.core, e.pluginId, e.id) <==> IsListed(s, e.id)
  {
    if k :| 0 <= k < |s.core.timers| && s.core.timers[k].id == e.id {
      OwnerRecorded(s, e, s.core.timers[k]);
      assert Owns(s.core.timers[k], e.pluginId, e.id);
    }
  }

  /** Exactly which cancels miss.  The owner's cancel of a timer it registered returns 0 if and only
      if the timer's callback is not running, it has not been freed, and its registration is past
      its critical section. */
  lemma CancelHitsExactly(run: seq<Action>, e: Event)
    requires Legal(INIT, run) && e in Exec(INIT, run).log && e.Armed?
    ensures var s := Exec(INIT, run);
            CancelHits(s.core, e.pluginId, e.id) <==>
            !IsAloft(s, e.id) && !IsFreed(s, e.id) && !IsPending(s, e.id)
  {
    Reachable(run);
    HitsExactlyListed(Exec(INIT, run), e);
    OnePlace(Exec(INIT, run), e.id);
  }

  /** A repeating timer whose callback is running cannot be cancelled: the call misses, changes
      nothing, and the timer is back on the list when the callback returns. */
  lemma InFlightEscapesCancel(run: seq<Action>, pluginId: nat, crashed: bool, reading: Timespec)
    requires Legal(INIT, run) && IsReading(reading)
    requires var s := Exec(INIT, run);
             s.thread.InFlight? && s.thread.timer.repeating && s.core.running
    ensures var s := Exec(INIT, run);
            var t := s.thread.timer;
            && !CancelHits(s.core, pluginId, t.id)
            && Next(s, CancelCall(pluginId, t.id)) == s
            && CancelHits(Next(s, Return(crashed, reading)).core, t.pluginId, t.id)
  {
    Reachable(run);
    var s := Exec(INIT, run);
    var t := s.thread.timer;
    SoleOwner(s, t.id);
    assert Owners(s)[t.id] >= 1;
    InsertedIsPresent(s.core.timers, Rearm(t, reading));
  }

  lemma InsertedIsPresent(l: seq<Timer>, t: Timer)
    ensures Present(Insert(l, t), t.pluginId, t.id)
  {
    InsertMembers(l, t);
    assert t in Insert(l, t);
    var i :| 0 <= i < |Insert(l, t)| && Insert(l, t)[i] == t;
    assert Owns(Insert(l, t)[i], t.pluginId, t.id);
  }

  // ----- bringing a timer to its callback -----

  /** The next thing that happens to `id` is that it fires, at reading `at`. */
  ghost predicate FiresNext(id: int, at: nat, before: seq<Event>, after: seq<Event>) {
    && before <= after
    && exists k :: |before| <= k < |after| && FirstOf(id, |before|, k, after) && after[k].Fired? && after[k].at == at
  }

  ghost predicate FirstOf(id: int, from: nat, k: nat, log: seq<Event>)
    requires from <= k < |log|
  {
    log[k].id == id && forall j :: from <= j < k ==> log[j].id != id
  }

  /** `id` is on its way to firing and will be due at `at`. */
  ghost predicate Live(s: Sched, id: int, at: nat) {
    exists t :: (t in s.core.timers || t in s.pending) && t.id == id && t.due <= at
  }

  /** The step that brings a live timer closer to its callback: its registration finishes, the
      thread comes back to its loop, or the timer ahead of it is cancelled. */
  lemma CloserStep(s: Sched, id: int, at: Timespec) returns (a: Action)
    requires Inv(s) && s.phase.Up? && Live(s, id, Millis(at)) && IsReading(at)
    requires !(s.thread.Evaluating? && s.core.timers != [] && s.core.timers[0].id == id)
    ensures Enabled(s, a) && Next(s, a).phase.Up? && Live(Next(s, a), id, Millis(at))
    ensures NothingSince(id, s.log, Next(s, a).log)
    ensures Remaining(Next(s, a), id) < Remaining(s, id)
  {
    var t :| (t in s.core.timers || t in s.pending) && t.id == id && t.due <= Millis(at);
    if t in s.pending {
      var k :| 0 <= k < |s.pending| && s.pending[k] == t;
      a := Enlist(k);
      InsertMembers(s.core.timers, t);
      InsertLength(s.core.timers, t);
    } else if Waiting(s.thread) {
      a := WakeUp;
    } else if s.thread.InFlight? {
      a := Return(false, at);
      SoleOwner(s, s.thread.timer.id);
      InsertMembers(s.core.timers, Rearm(s.thread.timer, at));
      InsertLength(s.core.timers, Rearm(s.thread.timer, at));
      assert t in Next(s, a).core.timers;
    } else {
      var h := s.core.timers[0];
      a := CancelCall(h.pluginId, h.id);
      HeadGoes(s);
      assert t in s.core.timers[1..];
    }
  }

  lemma InsertLength(l: seq<Timer>, t: Timer)
    ensures |Insert(l, t)| == |l| + 1
  {
    var k := InsertPoint(l, t);
  }

  lemma HeadGoes(s: Sched)
    requires Inv(s) && s.core.timers != []
    ensures var h := s.core.timers[0];
            && CancelHits(s.core, h.pluginId, h.id)
            && SchedulerCore.Cancel(s.core, h.pluginId, h.id).timers == s.core.timers[1..]
  {
    var h := s.core.timers[0];
    Listed(s.core.timers, h);
    assert Owners(s)[h.id] >= 1;
    assert Owns(h, h.pluginId, h.id);
  }

  /** How many such steps are left at most. */
  function Remaining(s: Sched, id: int): nat {
    3 * |s.pending| + |s.core.timers|
    + match s.thread { case Evaluating => 0 case InFlight(_) => 2 case _ => 1 }
  }

  /** From every state of a running scheduler, a live timer can be brought to its callback at any
      reading it is due at. */
  lemma BringToCallback(s: Sched, id: int, at: Timespec) returns (run: seq<Action>)
    requires Inv(s) && s.phase.Up? && Live(s, id, Millis(at)) && IsReading(at)
    ensures Legal(s, run) && FiresNext(id, Millis(at), s.log, Exec(s, run).log)
    ensures IsAloft(Exec(s, run), id) && Exec(s, run).core.running
    decreases Remaining(s, id)
  {
    if s.thread.Evaluating? && s.core.timers != [] && s.core.timers[0].id == id {
      run := FireHead(s, id, at);
    } else {
      var a := CloserStep(s, id, at);
      InvStep(s, a);
      var rest := BringToCallback(Next(s, a), id, at);
      run := Prefixed(s, a, rest);
      Later(id, Millis(at), s.log, Next(s, a).log, Exec(s, run).log);
    }
  }

  lemma Prefixed(s: Sched, a: Action, rest: seq<Action>) returns (run: seq<Action>)
    requires Enabled(s, a) && Legal(Next(s, a), rest)
    ensures run == [a] + rest && Legal(s, run) && Exec(s, run) == Exec(Next(s, a), rest)
  {
    run := [a] + rest;
    assert run[1..] == rest;
  }

  lemma Later(id: int, at: nat, before: seq<Event>, middle: seq<Event>, after: seq<Event>)
    requires NothingSince(id, before, middle) && FiresNext(id, at, middle, after)
    ensures FiresNext(id, at, before, after)
  {
    var k :| |middle| <= k < |after| && FirstOf(id, |middle|, k, after) && after[k].Fired? && after[k].at == at;
    forall j | |before| <= j < k
      ensures after[j].id != id
    {
      assert j < |middle| ==> after[j] == middle[j];
    }
    assert FirstOf(id, |before|, k, after);
  }

  lemma FireHead(s: Sched, id: int, at: Timespec) returns (run: seq<Action>)
    requires Inv(s) && s.phase.Up? && Live(s, id, Millis(at)) && IsReading(at)
    requires s.thread.Evaluating? && s.core.timers != [] && s.core.timers[0].id == id
    ensures Legal(s, run) && FiresNext(id, Millis(at), s.log, Exec(s, run).log)
    ensures IsAloft(Exec(s, run), id) && Exec(s, run).core.running
    ensures Exec(s, run).core.timers == s.core.timers[1..] && |Exec(s, run).log| == |s.log| + 1
  {
    var h, a := s.core.timers[0], Evaluate(at, at);
    var t :| (t in s.core.timers || t in s.pending) && t.id == id && t.due <= Millis(at);
    HeadIsAlone(s);
    assert t == h;
    run := Prefixed(s, a, []);
    var after := Next(s, a).log;
    assert after == s.log + [Fired(id, Millis(at), h.cb, h.user)];
    assert FirstOf(id, |s.log|, |s.log|, after);
  }

  /** A clock that reads `n` milliseconds. */
  function At(n: nat): (t: Timespec)
    requires n < TWO_POW_64
    ensures IsReading(t) && Millis(t) == n
  {
    Timespec(n / MS_PER_SEC, n % MS_PER_SEC * NS_PER_MS)
  }

  lemma PlacedTimer(s: Sched, id: int) returns (t: Timer)
    requires IsPending(s, id) || IsListed(s, id)
    ensures (t in s.core.timers || t in s.pending) && t.id == id
  {
    if k :| 0 <= k < |s.pending| && s.pending[k].id == id {
      t := s.pending[k];
    } else {
      var k :| 0 <= k < |s.core.timers| && s.core.timers[k].id == id;
      t := s.core.timers[k];
    }
  }

  lemma PlacedIsLive(s: Sched, id: int) returns (due: nat)
    requires LogConsistent(s) && (IsPending(s, id) || IsListed(s, id))
    ensures due < TWO_POW_64 && Live(s, id, due)
  {
    var t := PlacedTimer(s, id);
    assert ArmedFor(s.log, t);
    due := t.due;
  }

  /** The escape from cancellation happens: every accepted registration of a repeating timer has a
      continuation in which its callback is running in a running scheduler. */
  lemma EscapeIsReachable(run: seq<Action>, reg: Action) returns (more: seq<Action>)
    requires Legal(INIT, run) && Exec(INIT, run).phase.Up?
    requires reg.Prepare? && reg.repeating && Enabled(Exec(INIT, run), reg)
    ensures Legal(Next(Exec(INIT, run), reg), more)
    ensures var s := Exec(Next(Exec(INIT, run), reg), more);
            IsAloft(s, Exec(INIT, run).core.nextId) && s.thread.timer.repeating && s.core.running
  {
    Reachable(run);
    var s0 := Exec(INIT, run);
    var s, id := Next(s0, reg), s0.core.nextId;
    var due := RegistrationIsLive(s0, reg);
    more := BringToCallback(s, id, At(due));
    InvRun(s, more);
    var e := s.log[|s0.log|];
    LogGrows(s, more);
    assert e == Exec(s, more).log[|s0.log|];
    OwnerRecorded(Exec(s, more), e, Exec(s, more).thread.timer);
  }

  /** A registration is refused only for a null callback or a repeating interval of 0; every other can
      be brought to its callback, with the function and the argument of the call. */
  lemma RegistrationCanFire(run: seq<Action>, reg: Action) returns (more: seq<Action>)
    requires Legal(INIT, run) && Exec(INIT, run).phase.Up? && reg.Prepare?
    requires reg.cb != 0 && (!reg.repeating || reg.ms != 0)
    requires reg.ms < 0x1_0000_0000_0000_0000 && IsReading(reg.reading)
    ensures Enabled(Exec(INIT, run), reg) && Legal(Next(Exec(INIT, run), reg), more)
    ensures var before := Exec(INIT, run);
            var after := Exec(Next(before, reg), more).log;
            exists k :: |before.log| <= k < |after| && CalledBack(after[k], before.core.nextId, reg.cb, reg.user)
  {
    Reachable(run);
    var s0 := Exec(INIT, run);
    var due := RegistrationIsLive(s0, reg);
    var s := Next(s0, reg);
    more := BringToCallback(s, s0.core.nextId, At(due));
    InvRun(s, more);
    FiredAsArmed(s, |s0.log|, Exec(s, more), due);
  }

  lemma RegistrationIsLive(s: Sched, reg: Action) returns (due: nat)
    requires Inv(s) && s.phase.Up? && reg.Prepare? && Enabled(s, reg)
    ensures var s', id := Next(s, reg), s.core.nextId;
            && Inv(s') && s'.phase.Up? && due < TWO_POW_64 && Live(s', id, due)
            && |s'.log| == |s.log| + 1 && s'.log[|s.log|].Armed? && s'.log[|s.log|].id == id
            && s'.log[|s.log|].cb == reg.cb && s'.log[|s.log|].user == reg.user
  {
    InvStep(s, reg);
    var s' := Next(s, reg);
    assert s'.pending[|s'.pending| - 1].id == s.core.nextId;
    due := PlacedIsLive(s', s.core.nextId);
  }

  predicate CalledBack(e: Event, id: int, cb: nat, user: nat) {
    e.Fired? && e.id == id && e.cb == cb && e.user == user
  }

  lemma FiredAsArmed(s: Sched, a: nat, s': Sched, at: nat)
    requires Inv(s') && a < |s.log| && s.log[a].Armed? && FiresNext(s.log[a].id, at, s.log, s'.log)
    ensures exists k :: a < k < |s'.log| && CalledBack(s'.log[k], s.log[a].id, s.log[a].cb, s.log[a].user)
  {
    var id, log := s.log[a].id, s'.log;
    var k :| |s.log| <= k < |log| && FirstOf(id, |s.log|, k, log) && log[k].Fired? && log[k].at == at;
    assert log[..k][a] == s.log[a];
    assert Justified(log[..k], log[k]);
    assert CalledBack(log[k], id, s.log[a].cb, s.log[a].user);
  }

  // ----- silence -----

  predicate NeverFires(id: int, before: seq<Event>, after: seq<Event>) {
    && before <= after
    && forall k :: |before| <= k < |after| && after[k].id == id ==> !after[k].Fired?
  }

  /** Nothing can make `id` fire any more. */
  ghost predicate Spent(s: Sched, id: int) {
    || !s.phase.Up?
    || IsFreed(s, id)
    || (IsAloft(s, id) && !s.thread.timer.repeating)
  }

  lemma SpentStep(s: Sched, id: int, a: Action)
    requires Inv(s) && Enabled(s, a) && Spent(s, id)
    ensures Spent(Next(s, a), id) && NeverFires(id, s.log, Next(s, a).log)
  {
    if !s.phase.Up? {
      StoppingStep(s, a);
    } else if IsFreed(s, id) {
      FreedStep(s, id, a);
    } else {
      SoleOwner(s, id);
    }
  }

  lemma {:induction false} SpentIsSilent(s: Sched, id: int, run: seq<Action>)
    requires Inv(s) && Legal(s, run) && Spent(s, id)
    ensures NeverFires(id, s.log, Exec(s, run).log)
    decreases |run|
  {
    if run != [] {
      SpentStep(s, id, run[0]);
      InvStep(s, run[0]);
      SpentIsSilent(Next(s, run[0]), id, run[1..]);
    }
  }

  ghost predicate CanStillFire(s: Sched, id: int) {
    exists run :: Legal(s, run) && !NeverFires(id, s.log, Exec(s, run).log)
  }

  lemma BroughtFires(s: Sched, id: int)
    requires Inv(s) && s.phase.Up? && (IsPending(s, id) || IsListed(s, id))
    ensures CanStillFire(s, id)
  {
    var due := PlacedIsLive(s, id);
    var run := BringToCallback(s, id, At(due));
    assert !NeverFires(id, s.log, Exec(s, run).log);
  }

  lemma AloftComesBack(s: Sched, id: int)
    requires Inv(s) && s.phase.Up? && IsAloft(s, id) && s.thread.timer.repeating
    ensures CanStillFire(s, id)
  {
    var a := Return(false, At(0));
    var s', t := Next(s, a), Rearm(s.thread.timer, At(0));
    InvStep(s, a);
    InsertMembers(s.core.timers, t);
    assert Live(s', id, t.due);
    var rest := BringToCallback(s', id, At(t.due));
    var run := Prefixed(s, a, rest);
    var after := Exec(s, run).log;
    var k :| |s'.log| <= k < |after| && FirstOf(id, |s'.log|, k, after) && after[k].Fired? && after[k].at == t.due;
    LogGrows(s, run);
    assert |s.log| <= k && after[k].id == id && after[k].Fired?;
  }

  /** A timer can fire again in some continuation if and only if the scheduler is up and the timer
      is pending, listed, or repeating with its callback running. */
  lemma CanStillFireExactly(s: Sched, id: int)
    requires Inv(s) && 1 <= id < s.core.nextId
    ensures CanStillFire(s, id) <==>
            && s.phase.Up?
            && (IsPending(s, id) || IsListed(s, id) || (IsAloft(s, id) && s.thread.timer.repeating))
  {
    OnePlace(s, id);
    if Spent(s, id) {
      forall run | Legal(s, run)
        ensures NeverFires(id, s.log, Exec(s, run).log)
      {
        SpentIsSilent(s, id, run);
      }
    } else if IsAloft(s, id) {
      AloftComesBack(s, id);
    } else {
      BroughtFires(s, id);
    }
  }

  /** What the owner's cancel achieves, exactly.  After the call, whatever it returned, the timer
      never fires again in any continuation if and only if the scheduler is shutting down, or the
      registration was past its critical section and no callback of a repeating timer was running. */
  lemma CancelSilencesExactly(run: seq<Action>, e: Event)
    requires Legal(INIT, run) && e in Exec(INIT, run).log && e.Armed?
    ensures var s := Exec(INIT, run);
            !CanStillFire(Next(s, CancelCall(e.pluginId, e.id)), e.id) <==>
            || !s.phase.Up?
            || (!IsPending(s, e.id) && !(IsAloft(s, e.id) && s.thread.timer.repeating))
  {
    Reachable(run);
    var s := Exec(INIT, run);
    var s' := Next(s, CancelCall(e.pluginId, e.id));
    InvStep(s, CancelCall(e.pluginId, e.id));
    HitsExactlyListed(s, e);
    CanStillFireExactly(s', e.id);
    OnePlace(s', e.id);
    assert IsListed(s, e.id) ==> s'.core.freed[|s.core.freed|] == e.id;
  }

  // ----- shutting down -----

  /** From every state of every run the scheduler can be shut down: the flag is set if it was not, the
      thread leaves, and the cleanup runs. */
  lemma ShutdownCanFinish(s: Sched) returns (run: seq<Action>)
    requires Inv(s)
    ensures Legal(s, run) && Exec(s, run).phase.Cleaned?
    decreases match s.phase case Up => 1 case _ => 0,
              match s.thread case Exited => 0 case Evaluating => 1 case InFlight(_) => 2 case _ => 3
  {
    if s.phase.Cleaned? {
      run := [];
    } else {
      var a := if s.phase.Up? then Shutdown else if s.thread.InFlight? then Return(false, At(0))
               else if s.thread.Evaluating? then Evaluate(At(0), At(0)) else CleanupCall;
      InvStep(s, a);
      if a.CleanupCall? {
        run := Prefixed(s, a, []);
      } else {
        var rest := ShutdownCanFinish(Next(s, a));
        run := Prefixed(s, a, rest);
      }
    }
  }

  // ----- firing too early -----

  /** In this continuation the next thing that happens to the timer `e` armed is a firing, at a
      reading not before the one it was armed at, yet before its delay has passed. */
  ghost predicate FiresEarly(s: Sched, e: Event, run: seq<Action>)
    requires !e.Fired?
  {
    && Legal(s, run)
    && exists at :: e.reading <= at < e.reading + e.delay && FiresNext(e.id, at, s.log, Exec(s, run).log)
  }

  /** Exactly which timers can fire too early.  In any state of a running scheduler take a timer that
      is pending or listed, so last armed or re-armed by some event `e`.  Some continuation fires
      it next before `e.reading + e.delay`, at a clock that has not even stepped back behind
      `e.reading`, if and only if that sum does not fit in 64 bits. */
  lemma EarlyFiringExactlyOnOverflow(run: seq<Action>, id: int, e: Event)
    requires Legal(INIT, run) && Exec(INIT, run).phase.Up?
    requires IsPending(Exec(INIT, run), id) || IsListed(Exec(INIT, run), id)
    requires LastOf(Exec(INIT, run).log, id) == [e]
    ensures !e.Fired? && e.id == id
    ensures (exists more :: FiresEarly(Exec(INIT, run), e, more)) <==> TWO_POW_64 <= e.reading + e.delay
  {
    Reachable(run);
    var s := Exec(INIT, run);
    var t := PlacedTimer(s, id);
    assert ArmedFor(s.log, t);
    LastOfMember(s.log, id);
    if TWO_POW_64 <= e.reading + e.delay {
      var more := OverflowFiresEarly(s, t, e);
    }
    forall more | FiresEarly(s, e, more)
      ensures TWO_POW_64 <= e.reading + e.delay
    {
      EarlyMeansOverflow(s, e, more);
    }
  }

  lemma OverflowFiresEarly(s: Sched, t: Timer, e: Event) returns (more: seq<Action>)
    requires Inv(s) && s.phase.Up? && (t in s.core.timers || t in s.pending) && t.id == e.id
    requires LastOf(s.log, e.id) == [e] && !e.Fired? && t.due == DueOf(e)
    requires TWO_POW_64 <= e.reading + e.delay
    ensures FiresEarly(s, e, more)
  {
    DelayIsShort(s, e);
    WrapsBelow(e.reading, e.delay);
    var at := At(e.reading);
    assert Live(s, e.id, Millis(at));
    more := BringToCallback(s, e.id, at);
    EarlyBy(s, e, more);
  }

  lemma EarlyBy(s: Sched, e: Event, more: seq<Action>)
    requires !e.Fired? && Legal(s, more) && 0 < e.delay
    requires FiresNext(e.id, e.reading, s.log, Exec(s, more).log)
    ensures FiresEarly(s, e, more)
  {
  }

  lemma DelayIsShort(s: Sched, e: Event)
    requires ShortDelays(s) && LastOf(s.log, e.id) == [e] && !e.Fired?
    ensures e.reading < TWO_POW_64 && e.delay < TWO_POW_64
  {
    LastOfMember(s.log, e.id);
    var k :| 0 <= k < |s.log| && s.log[k] == e;
  }

  lemma EarlyMeansOverflow(s: Sched, e: Event, more: seq<Action>)
    requires Inv(s) && LastOf(s.log, e.id) == [e] && !e.Fired?
    requires FiresEarly(s, e, more)
    ensures TWO_POW_64 <= e.reading + e.delay
  {
    InvRun(s, more);
    var log := Exec(s, more).log;
    var at :| e.reading <= at < e.reading + e.delay && FiresNext(e.id, at, s.log, log);
    var k :| |s.log| <= k < |log| && FirstOf(e.id, |s.log|, k, log) && log[k].Fired? && log[k].at == at;
    var m := FiringAnswersArming(log, k);
    var p := LastPosition(s.log, e.id);
    assert log[p] == s.log[p] == e;
    assert forall j :: p < j < |s.log| ==> log[j] == s.log[j];
    assert m == p;
  }

  // ----- reading a node that is gone -----

  /** Every node the timer thread, a registering thread before its critical section, or a cancel
      looks at is allocated. */
  lemma GuardedReadsAreLive(run: seq<Action>, id: int)
    requires Legal(INIT, run)
    requires var s := Exec(INIT, run); IsPending(s, id) || IsListed(s, id) || IsAloft(s, id)
    ensures !IsFreed(Exec(INIT, run), id)
  {
    Reachable(run);
    var s := Exec(INIT, run);
    CountedOnce(s.pending, id);
    CountedOnce(s.core.timers, id);
    assert Owners(s)[id] >= 1;
    OnePlace(s, id);
  }

  /** A registering thread reads `t->id` for its caller after giving up the lock.  That node is still
      allocated if and only if it is on the list or its callback is running; and while it is
      listed, one cancel by its owner is enough to make the read hit a freed node. */
  lemma ReturnIdReadsLiveNodeExactly(run: seq<Action>, k: nat)
    requires Legal(INIT, run) && Enabled(Exec(INIT, run), ReturnId(k))
    ensures var s := Exec(INIT, run);
            var id := s.returning[k];
            && (!IsFreed(s, id) <==> IsListed(s, id) || IsAloft(s, id))
            && (IsListed(s, id) ==>
                  exists owner :: && Enabled(Next(s, CancelCall(owner, id)), ReturnId(k))
                                  && Next(s, CancelCall(owner, id)).returning[k] == id
                                  && IsFreed(Next(s, CancelCall(owner, id)), id))
  {
    Reachable(run);
    var s := Exec(INIT, run);
    var id := s.returning[k];
    OnePlace(s, id);
    if i :| 0 <= i < |s.core.timers| && s.core.timers[i].id == id {
      var owner := s.core.timers[i].pluginId;
      assert Owns(s.core.timers[i], owner, id);
      var s' := Next(s, CancelCall(owner, id));
      assert s'.core.freed[|s.core.freed|] == id;
      assert IsFreed(s', id) && s'.returning[k] == id;
    }
  }

  /** And it happens: every accepted registration can be followed by its own critical section and
      a cancel, after which the read of `t->id` still to come is of a freed node. */
  lemma FreedReadIsReachable(run: seq<Action>, reg: Action) returns (more: seq<Action>, k: nat)
    requires Legal(INIT, run) && reg.Prepare? && Enabled(Exec(INIT, run), reg)
    ensures Legal(Next(Exec(INIT, run), reg), more)
    ensures var s := Exec(Next(Exec(INIT, run), reg), more);
            Enabled(s, ReturnId(k)) && s.returning[k] == Exec(INIT, run).core.nextId && IsFreed(s, s.returning[k])
  {
    Reachable(run);
    var s0 := Exec(INIT, run);
    var s1, id := Next(s0, reg), s0.core.nextId;
    InvStep(s0, reg);
    k := |s1.returning|;
    var enlist, cancel := Enlist(|s1.pending| - 1), CancelCall(reg.pluginId, id);
    var s2 := Next(s1, enlist);
    InsertedIsPresent(s1.core.timers, s1.pending[|s1.pending| - 1]);
    assert CancelHits(s2.core, reg.pluginId, id);
    var s3 := Next(s2, cancel);
    assert s3.core.freed[|s2.core.freed|] == id && s3.returning[k] == id;
    var last := Prefixed(s2, cancel, []);
    more := Prefixed(s1, enlist, last);
  }
}

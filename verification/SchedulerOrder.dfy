/** No overtaking: the order of the timer list is the order of the callbacks, whatever is registered,
    cancelled, fired and re-armed in between. */
module SchedulerOrder {
  import opened Common
  import opened Clock
  import opened TimerOrder
  import opened SchedulerCore
  import opened SchedulerRuns
  import opened SchedulerTheorems
  import opened SchedulerContinuations

  /** `a` stands before `b` on the list. */
  predicate Ahead(l: seq<Timer>, a: int, b: int) {
    exists i, j :: 0 <= i < j < |l| && l[i].id == a && l[j].id == b
  }

  ghost predicate Distinct(l: seq<Timer>) {
    forall m, n :: 0 <= m < n < |l| ==> l[m].id != l[n].id
  }

  // ----- the list, one operation at a time -----

  lemma AheadSplice(x: seq<Timer>, t: Timer, y: seq<Timer>, a: int, b: int)
    requires Ahead(x + y, a, b)
    ensures Ahead(x + [t] + y, a, b)
  {
    var l, l' := x + y, x + [t] + y;
    var i, j :| 0 <= i < j < |l| && l[i].id == a && l[j].id == b;
    var i' := if i < |x| then i else i + 1;
    var j' := if j < |x| then j else j + 1;
    assert l'[i'] == l[i] && l'[j'] == l[j];
  }

  lemma InsertKeepsAhead(l: seq<Timer>, t: Timer, a: int, b: int)
    requires Ahead(l, a, b)
    ensures Ahead(Insert(l, t), a, b)
  {
    var k := InsertPoint(l, t);
    assert l[..k] + l[k..] == l;
    AheadSplice(l[..k], t, l[k..], a, b);
  }

  /** Taking out a timer other than `a` and `b` leaves their order alone. */
  lemma RemoveKeepsAhead(l: seq<Timer>, pluginId: nat, id: int, a: int, b: int)
    requires Ahead(l, a, b) && id != a && id != b
    ensures Ahead(Remove(l, pluginId, id), a, b)
  {
    if Present(l, pluginId, id) {
      var k := RemovePoint(l, pluginId, id);
      var l' := Remove(l, pluginId, id);
      var i, j :| 0 <= i < j < |l| && l[i].id == a && l[j].id == b;
      var i' := if i < k then i else i - 1;
      var j' := if j < k then j else j - 1;
      assert l'[i'] == l[i] && l'[j'] == l[j];
    } else {
      RemoveAbsent(l, pluginId, id);
    }
  }

  /** The head's id is nowhere else, so whatever is behind another timer is not the head. */
  lemma PopKeepsAhead(s: Sched, a: int, b: int)
    requires Conserved(s) && s.core.timers != [] && Ahead(s.core.timers, a, b)
    ensures s.core.timers[0].id != b
    ensures s.core.timers[0].id != a ==> Ahead(s.core.timers[1..], a, b)
  {
    HeadIsAlone(s);
    var l := s.core.timers;
    var i, j :| 0 <= i < j < |l| && l[i].id == a && l[j].id == b;
    assert l[j] in l[1..] by {
      assert l[1..][j - 1] == l[j];
    }
    if i > 0 {
      assert l[1..][i - 1] == l[i] && l[1..][j - 1] == l[j];
    }
  }

  // ----- every step, every run -----

  lemma AheadIsListed(s: Sched, a: int, b: int)
    requires Conserved(s) && Ahead(s.core.timers, a, b)
    ensures a != b && IsListed(s, a) && IsListed(s, b)
    ensures !IsFreed(s, a) && !IsAloft(s, a) && !IsFreed(s, b) && !IsAloft(s, b)
    ensures 1 <= a < s.core.nextId && 1 <= b < s.core.nextId
  {
    var l := s.core.timers;
    var i, j :| 0 <= i < j < |l| && l[i].id == a && l[j].id == b;
    Apart(s, i, j);
    Listed(l, l[i]);
    Listed(l, l[j]);
    assert Owners(s)[a] >= 1 && Owners(s)[b] >= 1;
    if IsFreed(s, a) || IsAloft(s, a) {
      SoleOwner(s, a);
    }
    if IsFreed(s, b) || IsAloft(s, b) {
      SoleOwner(s, b);
    }
  }

  lemma Apart(s: Sched, i: nat, j: nat)
    requires Conserved(s) && i < j < |s.core.timers|
    ensures s.core.timers[i].id != s.core.timers[j].id
  {
    var l := s.core.timers;
    assert Owners(s)[l[i].id] <= 1;
    assert l == l[..j] + l[j..];
    IdsConcat(l[..j], l[j..]);
    Listed(l[..j], l[..j][i]);
    Listed(l[j..], l[j..][0]);
  }

  lemma ListIsDistinct(s: Sched)
    requires Conserved(s)
    ensures Distinct(s.core.timers)
  {
    forall m, n | 0 <= m < n < |s.core.timers|
      ensures s.core.timers[m].id != s.core.timers[n].id
    {
      Apart(s, m, n);
    }
  }

  /** `a` has neither fired nor been taken off the list since `s`. */
  ghost predicate StillWaiting(s: Sched, a: int, s': Sched) {
    NothingSince(a, s.log, s'.log) && IsListed(s', a)
  }

  /** `b` has not fired, and is still behind `a` unless it was cancelled. */
  ghost predicate StillBehind(s: Sched, a: int, b: int, s': Sched) {
    NothingSince(b, s.log, s'.log) && (Ahead(s'.core.timers, a, b) || IsFreed(s', b))
  }

  lemma AheadStep(s: Sched, x: Action, a: int, b: int)
    requires Inv(s) && Enabled(s, x) && Ahead(s.core.timers, a, b)
    ensures StillBehind(s, a, b, Next(s, x)) || !NothingSince(a, s.log, Next(s, x).log)
            || IsFreed(Next(s, x), a)
  {
    AheadIsListed(s, a, b);
    match x {
      case Enlist(k) =>
        InsertKeepsAhead(s.core.timers, s.pending[k], a, b);
      case Return(_, reading) =>
        InsertKeepsAhead(s.core.timers, Rearm(s.thread.timer, reading), a, b);
      case CancelCall(pluginId, id) =>
        CancelKeepsAhead(s, pluginId, id, a, b);
      case Evaluate(_, _) =>
        EvaluateKeepsAhead(s, x, a, b);
      case CleanupCall =>
        CleanupFrees(s, a);
      case _ =>
    }
  }

  lemma EvaluateKeepsAhead(s: Sched, x: Action, a: int, b: int)
    requires Inv(s) && Enabled(s, x) && x.Evaluate? && Ahead(s.core.timers, a, b)
    ensures StillBehind(s, a, b, Next(s, x)) || !NothingSince(a, s.log, Next(s, x).log)
  {
    var v := Decide(s.core, x.first, x.second);
    if v.Fire? {
      PopKeepsAhead(s, a, b);
      assert Next(s, x).log[|s.log|].id == v.timer.id;
    }
  }

  lemma CancelKeepsAhead(s: Sched, pluginId: nat, id: int, a: int, b: int)
    requires Ahead(s.core.timers, a, b)
    ensures var c := SchedulerCore.Cancel(s.core, pluginId, id);
            Ahead(c.timers, a, b) || a in c.freed || b in c.freed
  {
    var c := SchedulerCore.Cancel(s.core, pluginId, id);
    if CancelHits(s.core, pluginId, id) {
      assert c.freed[|s.core.freed|] == id;
      if id != a && id != b {
        RemoveKeepsAhead(s.core.timers, pluginId, id, a, b);
      }
    }
  }

  lemma CleanupFrees(s: Sched, a: int)
    requires IsListed(s, a)
    ensures a in Cleanup(s.core).freed
  {
    var k :| 0 <= k < |s.core.timers| && s.core.timers[k].id == a;
    assert Cleanup(s.core).freed[|s.core.freed| + k] == a;
  }

  lemma {:induction false} FreedForever(s: Sched, id: int, run: seq<Action>)
    requires Inv(s) && Legal(s, run) && IsFreed(s, id)
    ensures NothingSince(id, s.log, Exec(s, run).log) && IsFreed(Exec(s, run), id) && !IsListed(Exec(s, run), id)
    decreases |run|
  {
    if run == [] {
      SoleOwner(s, id);
    } else {
      FreedStep(s, id, run[0]);
      InvStep(s, run[0]);
      FreedForever(Next(s, run[0]), id, run[1..]);
    }
  }

  /** Main result.  If `a` stands before `b` on the list, then in every continuation, whatever is
      registered, cancelled or re-armed in it, `b` does not fire as long as `a` is waiting. */
  lemma {:induction false} NoOvertaking(s: Sched, run: seq<Action>, a: int, b: int)
    requires Inv(s) && Legal(s, run) && Ahead(s.core.timers, a, b)
    requires StillWaiting(s, a, Exec(s, run))
    ensures StillBehind(s, a, b, Exec(s, run))
    decreases |run|
  {
    if run != [] {
      var s1, rest := Next(s, run[0]), run[1..];
      InvStep(s, run[0]);
      LogGrows(s1, rest);
      NextLogGrows(s, run[0]);
      AheadStep(s, run[0], a, b);
      if IsFreed(s1, a) {
        FreedForever(s1, a, rest);
      } else if IsFreed(s1, b) {
        FreedForever(s1, b, rest);
      } else {
        NoOvertaking(s1, rest, a, b);
      }
    }
  }

  lemma NextLogGrows(s: Sched, x: Action)
    requires Enabled(s, x)
    ensures s.log <= Next(s, x).log
  {
  }

  // ----- and exactly those before it can go first -----

  /** In this continuation `b` fires while `a` keeps waiting. */
  ghost predicate Overtakes(s: Sched, run: seq<Action>, a: int, b: int) {
    Legal(s, run) && StillWaiting(s, a, Exec(s, run)) && !NeverFires(b, s.log, Exec(s, run).log)
  }

  /** What a step has to keep on the way to `t`'s callback: it stays listed before `a`, and nothing
      happens to `a`. */
  ghost predicate KeepsWay(s: Sched, x: Action, a: int, t: Timer) {
    && Enabled(s, x) && Next(s, x).phase.Up?
    && t in Next(s, x).core.timers && Ahead(Next(s, x).core.timers, t.id, a)
    && NothingSince(a, s.log, Next(s, x).log)
    && Remaining(Next(s, x), t.id) < Remaining(s, t.id)
  }

  lemma ReturnKeepsWay(s: Sched, a: int, t: Timer, at: Timespec)
    requires Inv(s) && s.phase.Up? && s.thread.InFlight? && IsReading(at)
    requires t in s.core.timers && Ahead(s.core.timers, t.id, a)
    ensures KeepsWay(s, Return(false, at), a, t)
  {
    var u := Rearm(s.thread.timer, at);
    ReturnGrows(s, at);
    AheadIsListed(s, t.id, a);
    InsertKeepsAhead(s.core.timers, u, t.id, a);
    InsertMembers(s.core.timers, u);
  }

  lemma ReturnGrows(s: Sched, at: Timespec)
    requires s.thread.InFlight? && IsReading(at)
    ensures |Next(s, Return(false, at)).core.timers| <= |s.core.timers| + 1
  {
    InsertLength(s.core.timers, Rearm(s.thread.timer, at));
  }

  lemma CancelKeepsWay(s: Sched, a: int, t: Timer)
    requires Inv(s) && s.phase.Up? && t in s.core.timers && Ahead(s.core.timers, t.id, a)
    requires s.core.timers[0].id != t.id && s.thread.Evaluating?
    ensures var x := CancelCall(s.core.timers[0].pluginId, s.core.timers[0].id);
            KeepsWay(s, x, a, t)
  {
    HeadGoes(s);
    PopKeepsAhead(s, t.id, a);
    assert t in s.core.timers[1..];
  }

  /** One step towards `t`'s callback: the thread comes back to its loop, or the timer at the head is
      cancelled. */
  lemma ClearsTheWay(s: Sched, a: int, t: Timer, at: Timespec) returns (x: Action)
    requires Inv(s) && s.phase.Up? && t in s.core.timers && Ahead(s.core.timers, t.id, a) && IsReading(at)
    requires !(s.thread.Evaluating? && s.core.timers[0].id == t.id)
    ensures KeepsWay(s, x, a, t)
  {
    if Waiting(s.thread) {
      x := WakeUp;
    } else if s.thread.InFlight? {
      x := Return(false, at);
      ReturnKeepsWay(s, a, t, at);
    } else {
      x := CancelCall(s.core.timers[0].pluginId, s.core.timers[0].id);
      CancelKeepsWay(s, a, t);
    }
  }

  lemma FiredSince(id: int, at: nat, before: seq<Event>, after: seq<Event>)
    requires FiresNext(id, at, before, after)
    ensures !NeverFires(id, before, after)
  {
    var k :| |before| <= k < |after| && FirstOf(id, |before|, k, after) && after[k].Fired? && after[k].at == at;
    assert after[k].id == id;
  }

  lemma FiringLater(id: int, before: seq<Event>, middle: seq<Event>, after: seq<Event>)
    requires before <= middle <= after && !NeverFires(id, middle, after)
    ensures !NeverFires(id, before, after)
  {
    var k :| |middle| <= k < |after| && after[k].id == id && after[k].Fired?;
  }

  lemma SilenceChains(id: int, before: seq<Event>, middle: seq<Event>, after: seq<Event>)
    requires NothingSince(id, before, middle) && NothingSince(id, middle, after)
    ensures NothingSince(id, before, after)
  {
  }

  /** The one new event is `b`'s, so nothing has happened to `a`. */
  lemma OneEvent(a: int, b: int, before: seq<Event>, after: seq<Event>)
    requires a != b && before <= after && |after| == |before| + 1 && !NeverFires(b, before, after)
    ensures NothingSince(a, before, after)
  {
  }

  lemma BehindHeadStays(l: seq<Timer>, a: int, b: int)
    requires Ahead(l, b, a)
    ensures exists k :: 0 <= k < |l[1..]| && l[1..][k].id == a
  {
    var i, j :| 0 <= i < j < |l| && l[i].id == b && l[j].id == a;
    assert l[1..][j - 1] == l[j];
  }

  lemma HeadGoesFirst(s: Sched, a: int, t: Timer, at: Timespec) returns (run: seq<Action>)
    requires Inv(s) && s.phase.Up? && t in s.core.timers && Ahead(s.core.timers, t.id, a)
    requires t.due <= Millis(at) && IsReading(at) && s.thread.Evaluating? && s.core.timers[0].id == t.id
    ensures Overtakes(s, run, a, t.id)
  {
    AheadIsListed(s, t.id, a);
    run := FireHead(s, t.id, at);
    var log := Exec(s, run).log;
    FiredSince(t.id, Millis(at), s.log, log);
    OneEvent(a, t.id, s.log, log);
    BehindHeadStays(s.core.timers, a, t.id);
  }

  lemma OvertakesLater(s: Sched, x: Action, rest: seq<Action>, a: int, b: int) returns (run: seq<Action>)
    requires Enabled(s, x) && NothingSince(a, s.log, Next(s, x).log) && Overtakes(Next(s, x), rest, a, b)
    ensures Overtakes(s, run, a, b)
  {
    run := Prefixed(s, x, rest);
    var s1, log := Next(s, x), Exec(s, run).log;
    SilenceChains(a, s.log, s1.log, log);
    FiringLater(b, s.log, s1.log, log);
  }

  /** A timer can be brought to its callback with any one behind it still waiting. */
  lemma GoesFirst(s: Sched, a: int, t: Timer, at: Timespec) returns (run: seq<Action>)
    requires Inv(s) && s.phase.Up? && t in s.core.timers && Ahead(s.core.timers, t.id, a)
    requires t.due <= Millis(at) && IsReading(at)
    ensures Overtakes(s, run, a, t.id)
    decreases Remaining(s, t.id)
  {
    if s.thread.Evaluating? && s.core.timers[0].id == t.id {
      run := HeadGoesFirst(s, a, t, at);
    } else {
      var x := ClearsTheWay(s, a, t, at);
      InvStep(s, x);
      var rest := GoesFirst(Next(s, x), a, t, at);
      run := OvertakesLater(s, x, rest, a, t.id);
    }
  }

  /** Of two listed timers the one can fire while the other waits if and only if it stands first. */
  lemma FirstOnTheListExactly(s: Sched, i: nat, j: nat)
    requires Inv(s) && s.phase.Up? && i < |s.core.timers| && j < |s.core.timers| && i != j
    ensures (exists run :: Overtakes(s, run, s.core.timers[i].id, s.core.timers[j].id)) <==> j < i
  {
    var a, b := s.core.timers[i].id, s.core.timers[j].id;
    if j < i {
      var t := s.core.timers[j];
      assert ArmedFor(s.log, t);
      var run := GoesFirst(s, a, t, At(t.due));
      assert Overtakes(s, run, a, b);
    } else {
      forall run | Legal(s, run) && StillWaiting(s, a, Exec(s, run))
        ensures NeverFires(b, s.log, Exec(s, run).log)
      {
        NoOvertaking(s, run, a, b);
      }
    }
  }

  // ----- who stands before whom -----

  /** The timer a step puts on the list, if it puts one there. */
  function Entering(s: Sched, x: Action): Option<Timer>
    requires Enabled(s, x)
  {
    match x
    case Enlist(k) => Some(s.pending[k])
    case Return(_, reading) =>
      if s.thread.timer.repeating && s.core.running then Some(Rearm(s.thread.timer, reading)) else None
    case _ => None
  }

  /** With distinct ids, `a` is before `b` if it is before the one place `b` has. */
  lemma BeforeThePlace(l: seq<Timer>, i: nat, k: nat)
    requires Distinct(l) && i < |l| && k < |l|
    ensures Ahead(l, l[i].id, l[k].id) <==> i < k
  {
    if k <= i {
      forall m, n | 0 <= m < n < |l| && l[n].id == l[k].id
        ensures l[m].id != l[i].id
      {
        assert n == k;
      }
    }
  }

  lemma InsertIsDistinct(l: seq<Timer>, t: Timer, k: nat)
    requires Distinct(l) && k <= |l| && forall n :: 0 <= n < |l| ==> l[n].id != t.id
    ensures Distinct(l[..k] + [t] + l[k..])
  {
    var l' := l[..k] + [t] + l[k..];
    forall m, n | 0 <= m < n < |l'|
      ensures l'[m].id != l'[n].id
    {
      assert l'[m] == if m < k then l[m] else if m == k then t else l[m - 1];
      assert l'[n] == if n < k then l[n] else if n == k then t else l[n - 1];
    }
  }

  lemma InsertedBehind(l: seq<Timer>, t: Timer, i: nat)
    requires Sorted(l) && i < |l| && Distinct(l)
    requires forall n :: 0 <= n < |l| ==> l[n].id != t.id
    ensures Ahead(Insert(l, t), l[i].id, t.id) <==> l[i].due <= t.due
  {
    var k := InsertPoint(l, t);
    InsertIsDistinct(l, t, k);
    BehindSplit(l, t, i, k);
    var l' := l[..k] + [t] + l[k..];
    var i' := if i < k then i else i + 1;
    assert l'[i'] == l[i] && l'[k] == t;
    BeforeThePlace(l', i', k);
  }

  lemma BehindSplit(l: seq<Timer>, t: Timer, i: nat, k: nat)
    requires Sorted(l) && i < |l| && k <= |l|
    requires forall n :: 0 <= n < k ==> l[n].due <= t.due
    requires k < |l| ==> t.due < l[k].due
    ensures i < k <==> l[i].due <= t.due
  {
  }

  /** A timer that comes onto the list, by a registration or a re-arming, stands behind exactly those
      due no later: among equal due times the first to come is the first to fire. */
  lemma EntersBehindExactly(s: Sched, x: Action, i: nat)
    requires Inv(s) && Enabled(s, x) && Entering(s, x).Some? && i < |s.core.timers|
    ensures var a, t := s.core.timers[i], Entering(s, x).value;
            Ahead(Next(s, x).core.timers, a.id, t.id) <==> a.due <= t.due
  {
    ListIsDistinct(s);
    match x {
      case Enlist(k) =>
        PendingIsNotListed(s, k);
        InsertedBehind(s.core.timers, s.pending[k], i);
      case Return(_, reading) =>
        SoleOwner(s, s.thread.timer.id);
        InsertedBehind(s.core.timers, Rearm(s.thread.timer, reading), i);
    }
  }

  lemma PendingIsNotListed(s: Sched, k: nat)
    requires Inv(s) && k < |s.pending|
    ensures !IsListed(s, s.pending[k].id)
  {
    var id := s.pending[k].id;
    Listed(s.pending, s.pending[k]);
    assert Owners(s)[id] >= 1;
    OnePlace(s, id);
  }

  /** First in, first out over whole runs: a timer that comes onto the list when `a` is on it, due no
      earlier than `a`, does not fire before `a` has fired or been cancelled. */
  lemma FirstInFirstOut(s: Sched, x: Action, i: nat, run: seq<Action>)
    requires Inv(s) && Enabled(s, x) && Entering(s, x).Some? && i < |s.core.timers|
    requires s.core.timers[i].due <= Entering(s, x).value.due
    requires Legal(Next(s, x), run) && StillWaiting(Next(s, x), s.core.timers[i].id, Exec(Next(s, x), run))
    ensures StillBehind(Next(s, x), s.core.timers[i].id, Entering(s, x).value.id, Exec(Next(s, x), run))
  {
    EntersBehindExactly(s, x, i);
    InvStep(s, x);
    NoOvertaking(Next(s, x), run, s.core.timers[i].id, Entering(s, x).value.id);
  }
}

/** End to end: what the workers call is what was subscribed, with what was published. */
module BusCalls {
  import opened Common
  import opened BlockCompare
  import opened BusCore
  import opened BusRuns
  import opened BusTheorems

  /** How many subscriptions a run made. */
  function Subscribes(run: seq<Action>): nat {
    if run == [] then 0
    else Subscribes(run[..|run| - 1]) + if run[|run| - 1].Subscribe? then 1 else 0
  }

  /** Call `k` of the run is the one that made the subscription `u`: its plugin, its copy of the name,
      its callback and its argument.  The first subscription is number 1, and `eventId` keeps 16
      bits of the number. */
  predicate MadeBy(run: seq<Action>, k: nat, u: Sub) {
    && k < |run| && run[k].Subscribe?
    && u.pluginId == run[k].pluginId && u.event == run[k].copy && u.cb == run[k].cb && u.user == run[k].user
    && run[k].cb != 0 && Text(run[k].copy) == Text(run[k].event)
    && u.node == 1 + Subscribes(run[..k]) && u.eventId == u.node % 0x1_0000
  }

  predicate IsMade(run: seq<Action>, u: Sub) {
    exists k :: 0 <= k < |run| && MadeBy(run, k, u)
  }

  /** Call `k` of the run published the task's bytes, to the subscription's plugin and under a name
      that finds it. */
  ghost predicate PublishedBy(vectors: Option<Width>, run: seq<Action>, k: nat, t: Task) {
    && k < |run| && run[k].Publish? && t.bytes == run[k].data
    && Named(vectors, t.sub, run[k].pluginId, run[k].event)
  }

  /** The task goes back to a subscription and a later publish call. */
  ghost predicate HasOrigin(vectors: Option<Width>, run: seq<Action>, t: Task) {
    exists j: nat, k: nat :: j < k && MadeBy(run, j, t.sub) && PublishedBy(vectors, run, k, t)
  }

  ghost predicate SubsMade(run: seq<Action>, s: Bus) {
    && s.eventCount == 1 + Subscribes(run)
    && forall i :: 0 <= i < |s.subs| ==> IsMade(run, s.subs[i])
  }

  ghost predicate TasksMade(run: seq<Action>, s: Bus) {
    && (forall i :: 0 <= i < |s.accepted| ==> HasOrigin(s.vectors, run, s.accepted[i]))
    && (!s.producer.Outside? ==> HasOrigin(s.vectors, run, s.producer.task))
  }

  /** One callback for each task handed out, with the subscription's function and argument. */
  ghost predicate CallsMatch(s: Bus) {
    && |s.calls| == |s.taken|
    && forall i :: 0 <= i < |s.taken| ==>
                     && s.calls[i].cb == s.taken[i].sub.cb && s.calls[i].user == s.taken[i].sub.user
                     && s.calls[i].bytes == s.taken[i].bytes && s.calls[i].cb != 0
  }

  ghost predicate Traced(run: seq<Action>, s: Bus) {
    SubsMade(run, s) && TasksMade(run, s) && CallsMatch(s)
  }

  // ----- one more step -----

  lemma MadeStays(run: seq<Action>, a: Action, k: nat, u: Sub)
    requires MadeBy(run, k, u)
    ensures MadeBy(run + [a], k, u)
  {
    assert (run + [a])[..k] == run[..k];
  }

  lemma OriginStays(vectors: Option<Width>, run: seq<Action>, a: Action, t: Task)
    requires HasOrigin(vectors, run, t)
    ensures HasOrigin(vectors, run + [a], t)
  {
    var j: nat, k: nat :| j < k && MadeBy(run, j, t.sub) && PublishedBy(vectors, run, k, t);
    MadeStays(run, a, j, t.sub);
    assert PublishedBy(vectors, run + [a], k, t);
  }

  lemma SubsStep(run: seq<Action>, s: Bus, a: Action)
    requires SubsMade(run, s) && Enabled(s, a)
    ensures SubsMade(run + [a], Next(s, a))
  {
    var s', run' := Next(s, a), run + [a];
    assert run'[..|run|] == run'[..|run'| - 1] == run && run'[|run|] == a;
    forall i | 0 <= i < |s'.subs|
      ensures IsMade(run', s'.subs[i])
    {
      if a.Subscribe? && i == 0 {
        assert MadeBy(run', |run|, s'.subs[0]);
      } else {
        var u := s'.subs[i];
        assert u == s.subs[if a.Subscribe? then i - 1 else i];
        var k :| MadeBy(run, k, u);
        MadeStays(run, a, k, u);
      }
    }
  }

  lemma PublishHasOrigin(run: seq<Action>, s: Bus, a: Action)
    requires SubsMade(run, s) && Enabled(s, a) && a.Publish? && Next(s, a).producer.Inside?
    ensures HasOrigin(s.vectors, run + [a], Next(s, a).producer.task)
  {
    var t := Next(s, a).producer.task;
    FindsTheNamedSubscription(s.vectors, s.subs, a.pluginId, a.event);
    var i :| 0 <= i < |s.subs| && s.subs[i] == t.sub && Named(s.vectors, s.subs[i], a.pluginId, a.event);
    var j :| MadeBy(run, j, t.sub);
    MadeStays(run, a, j, t.sub);
    assert PublishedBy(s.vectors, run + [a], |run|, t);
  }

  /** Only the publisher's task is ever accepted, and only a publish gives it one. */
  lemma TasksMove(s: Bus, a: Action)
    requires Enabled(s, a)
    ensures var s' := Next(s, a);
            && s'.vectors == s.vectors
            && (s'.accepted == s.accepted || (!s.producer.Outside? && s'.accepted == s.accepted + [s.producer.task]))
            && (!s'.producer.Outside? && !s.producer.Outside? ==> s'.producer.task == s.producer.task)
            && (!s'.producer.Outside? && s.producer.Outside? ==> a.Publish? && s'.producer.Inside?)
  {
  }

  lemma TasksStep(run: seq<Action>, s: Bus, s': Bus, a: Action)
    requires SubsMade(run, s) && TasksMade(run, s) && Enabled(s, a) && s' == Next(s, a)
    ensures TasksMade(run + [a], s')
  {
    TasksMove(s, a);
    forall i | 0 <= i < |s'.accepted|
      ensures HasOrigin(s'.vectors, run + [a], s'.accepted[i])
    {
      OriginStays(s.vectors, run, a, if i < |s.accepted| then s.accepted[i] else s.producer.task);
    }
    if !s'.producer.Outside? {
      if s.producer.Outside? {
        PublishHasOrigin(run, s, a);
      } else {
        OriginStays(s.vectors, run, a, s.producer.task);
      }
    }
  }

  /** The task a worker takes is the next of the accepted ones. */
  lemma TakenWasAccepted(s: Bus, i: nat)
    requires Fifo(s) && Enabled(s, PollQueue(i)) && Poll(s.ring, s.shut).Run?
    ensures |s.taken| < |s.accepted| && Poll(s.ring, s.shut).task == s.accepted[|s.taken|]
  {
    TakeRemovesFirst(s.ring);
    assert s.accepted[|s.taken|] == Queue(s.ring)[0];
  }

  lemma CallsStep(run: seq<Action>, s: Bus, a: Action)
    requires Fifo(s) && TasksMade(run, s) && CallsMatch(s) && Enabled(s, a)
    ensures CallsMatch(Next(s, a))
  {
    if a.PollQueue? && Poll(s.ring, s.shut).Run? {
      TakenWasAccepted(s, a.i);
      assert HasOrigin(s.vectors, run, s.accepted[|s.taken|]);
    }
  }

  lemma TracedStep(run: seq<Action>, s: Bus, a: Action)
    requires Inv(s) && Enabled(s, a) && Traced(run, s)
    ensures Traced(run + [a], Next(s, a)) && Inv(Next(s, a))
  {
    SubsStep(run, s, a);
    TasksStep(run, s, Next(s, a), a);
    CallsStep(run, s, a);
    InvStep(s, a);
  }

  lemma {:induction false} TracedRun(past: seq<Action>, s: Bus, run: seq<Action>)
    requires Inv(s) && Legal(s, run) && Traced(past, s)
    ensures Traced(past + run, Exec(s, run))
    decreases |run|
  {
    if run == [] {
      assert past + run == past;
    } else {
      TracedStep(past, s, run[0]);
      TracedRun(past + [run[0]], Next(s, run[0]), run[1..]);
      assert past + [run[0]] + run[1..] == past + run;
    }
  }

  lemma RunIsTraced(vectors: Option<Width>, run: seq<Action>)
    requires Legal(Init(vectors), run)
    ensures Traced(run, Exec(Init(vectors), run))
  {
    InvInit(vectors);
    TracedRun([], Init(vectors), run);
    assert [] + run == run;
  }

  // ----- over whole runs -----

  /** Every subscription on the list was made by one call of the run and carries that call's plugin,
      name, callback and argument. */
  lemma SubscriptionsAreCalls(vectors: Option<Width>, run: seq<Action>, i: nat)
    requires Legal(Init(vectors), run) && i < |Exec(Init(vectors), run).subs|
    ensures IsMade(run, Exec(Init(vectors), run).subs[i])
  {
    RunIsTraced(vectors, run);
  }

  /** Main result.  Every callback invoked goes back to a subscription and a later publish of the run:
      it is the function and the argument given to `bus_subscribe`, on the bytes given to
      `bus_publish`, by the same plugin and under the same name. */
  lemma CallsWhatWasSubscribed(vectors: Option<Width>, run: seq<Action>, i: nat)
    requires Legal(Init(vectors), run) && i < |Exec(Init(vectors), run).calls|
    ensures exists j, k ::
              && 0 <= j < k < |run| && run[j].Subscribe? && run[k].Publish?
              && run[j].pluginId == run[k].pluginId && Text(run[j].event) == Text(run[k].event)
              && Exec(Init(vectors), run).calls[i] == Call(run[j].cb, run[k].data, run[j].user)
  {
    RunIsTraced(vectors, run);
    Reachable(vectors, run);
    var s := Exec(Init(vectors), run);
    var t := s.taken[i];
    assert t == s.accepted[i];
    var j: nat, k: nat :| j < k && MadeBy(run, j, t.sub) && PublishedBy(vectors, run, k, t);
    assert run[j].Subscribe? && run[k].Publish?;
  }

  /** And no task is handed out without its callback: the callbacks are one for one those of the
      tasks handed out, in order. */
  lemma EveryTaskIsCalled(vectors: Option<Width>, run: seq<Action>)
    requires Legal(Init(vectors), run)
    ensures CallsMatch(Exec(Init(vectors), run))
  {
    RunIsTraced(vectors, run);
  }

  // ----- a publish can be delivered -----

  lemma WakeTarget(ws: seq<Worker>) returns (wakes: Option<nat>)
    ensures SignalMayWake(ws, wakes)
  {
    if i :| 0 <= i < |ws| && ws[i].Asleep? {
      wakes := Some(i);
    } else {
      wakes := None;
    }
  }

  /** Worker steps hand out task after task, until the first `n` accepted ones have been taken. */
  lemma WorkersTake(s: Bus, n: nat) returns (run: seq<Action>)
    requires Inv(s) && n <= |s.accepted|
    ensures Legal(s, run) && n <= |Exec(s, run).taken|
    ensures KeepsPublisher(s, Exec(s, run))
    decreases Rank(s)
  {
    if n <= |s.taken| {
      run := [];
    } else {
      assert |Queue(s.ring)| == s.ring.count;
      var i :| 0 <= i < |s.workers| && Active(s.workers[i]);
      var a := if s.workers[i].Running? then CallbackEnds(i, false) else PollQueue(i);
      WorkerStepTakes(s, a);
      InvStep(s, a);
      var rest := WorkersTake(Next(s, a), n);
      run := Prefixed(s, a, rest);
    }
  }

  /** What the workers' steps leave to the publisher: its task, the accepted ones, and the flag. */
  predicate KeepsPublisher(s: Bus, s': Bus) {
    && s'.accepted == s.accepted && s'.shut == s.shut && s'.vectors == s.vectors
    && (s.producer.Inside? ==> s'.producer == s.producer)
  }

  lemma WorkerStepTakes(s: Bus, a: Action)
    requires Inv(s) && Enabled(s, a) && s.ring.count > 0 && (a.PollQueue? || a.CallbackEnds?)
    ensures Rank(Next(s, a)) < Rank(s) && KeepsPublisher(s, Next(s, a))
  {
    match a {
      case PollQueue(i) => EffortsMove(s.workers, i, Next(s, a).workers[i]);
      case CallbackEnds(i, _) => EffortsMove(s.workers, i, Awake);
    }
  }

  lemma EnqueueAccepts(s: Bus, wakes: Option<nat>)
    requires Inv(s) && s.producer.Inside? && !s.shut && s.ring.count < 100 && SignalMayWake(s.workers, wakes)
    ensures Enabled(s, Enqueue(wakes)) && Next(s, Enqueue(wakes)).accepted == s.accepted + [s.producer.task]
  {
  }

  /** A task the publisher holds can be handed out: the workers make room, it is accepted, and the
      workers take all there is before it. */
  lemma HeldIsTaken(s: Bus) returns (run: seq<Action>)
    requires Inv(s) && s.producer.Inside? && !s.shut
    ensures Legal(s, run) && s.producer.task in Exec(s, run).taken
  {
    var drain := WorkersTake(s, |s.accepted|);
    InvRun(s, drain);
    var s1 := Exec(s, drain);
    assert |s1.accepted| == |s1.taken| + |Queue(s1.ring)|;
    var wakes := WakeTarget(s1.workers);
    EnqueueAccepts(s1, wakes);
    InvStep(s1, Enqueue(wakes));
    var s2 := Next(s1, Enqueue(wakes));
    var last := WorkersTake(s2, |s2.accepted|);
    InvRun(s2, last);
    TakesAll(Exec(s2, last), s.producer.task);
    var rest := Prefixed(s1, Enqueue(wakes), last);
    LegalConcat(s, drain, rest);
    run := drain + rest;
  }

  lemma TakesAll(s: Bus, t: Task)
    requires Inv(s) && |s.accepted| <= |s.taken| && t in s.accepted
    ensures t in s.taken
  {
    assert |s.accepted| == |s.taken| + |Queue(s.ring)|;
    assert s.taken + Queue(s.ring) == s.taken;
  }

  /** A publish takes effect exactly if it finds a subscription, and then the publisher holds a new
      task with the caller's bytes for it. */
  lemma PublishHoldsTask(s: Bus, pluginId: nat, event: seq<Byte>, data: seq<Byte>)
    requires Enabled(s, Publish(pluginId, event, data))
    ensures var p := Next(s, Publish(pluginId, event, data)).producer;
            && (p.Inside? <==> exists i :: 0 <= i < |s.subs| && Named(s.vectors, s.subs[i], pluginId, event))
            && (p.Inside? ==> p.task.bytes == data && p.task.sub in s.subs
                              && Named(s.vectors, p.task.sub, pluginId, event))
  {
    FindsTheNamedSubscription(s.vectors, s.subs, pluginId, event);
  }

  /** From every state of every run before shutdown, a publish that finds a subscription has a
      continuation in which a worker calls that subscription's callback on the published bytes. */
  lemma PublishCanBeDelivered(
    vectors: Option<Width>, run: seq<Action>, pluginId: nat, event: seq<Byte>, data: seq<Byte>)
    returns (more: seq<Action>)
    requires Legal(Init(vectors), run) && Enabled(Exec(Init(vectors), run), Publish(pluginId, event, data))
    requires !Exec(Init(vectors), run).shut
    requires var s := Exec(Init(vectors), run);
             exists i :: 0 <= i < |s.subs| && Named(vectors, s.subs[i], pluginId, event)
    ensures var s := Exec(Init(vectors), run);
            && Legal(Next(s, Publish(pluginId, event, data)), more)
            && exists u, k :: && u in s.subs && Named(vectors, u, pluginId, event)
                              && |s.calls| <= k < |Exec(Next(s, Publish(pluginId, event, data)), more).calls|
                              && Exec(Next(s, Publish(pluginId, event, data)), more).calls[k]
                                 == Call(u.cb, data, u.user)
  {
    Reachable(vectors, run);
    RunIsTraced(vectors, run);
    var s, a := Exec(Init(vectors), run), Publish(pluginId, event, data);
    PublishHoldsTask(s, pluginId, event, data);
    var s1 := Next(s, a);
    TracedStep(run, s, a);
    more := HeldIsTaken(s1);
    TracedRun(run + [a], s1, more);
    var s2, t := Exec(s1, more), s1.producer.task;
    NewTaskIsTakenLater(s, a, s1, more);
    var k :| |s.taken| <= k < |s2.taken| && s2.taken[k] == t;
    assert s2.calls[k] == Call(t.sub.cb, data, t.sub.user);
  }

  lemma {:induction false} TakenGrows(s: Bus, run: seq<Action>)
    requires Legal(s, run)
    ensures s.taken <= Exec(s, run).taken
    decreases |run|
  {
    if run != [] {
      TakenGrows(Next(s, run[0]), run[1..]);
    }
  }

  /** A new task has a new buffer, so it is none of those taken before. */
  lemma NewTaskIsTakenLater(s: Bus, a: Action, s1: Bus, more: seq<Action>)
    requires Inv(s) && Enabled(s, a) && a.Publish? && s1 == Next(s, a) && s1.producer.Inside? && Legal(s1, more)
    requires s1.producer.task in Exec(s1, more).taken
    ensures exists k :: |s.taken| <= k < |Exec(s1, more).taken| && Exec(s1, more).taken[k] == s1.producer.task
  {
    TakenGrows(s1, more);
    var s2, t := Exec(s1, more), s1.producer.task;
    assert t.payload == |s.requests|;
    forall k | 0 <= k < |s.taken|
      ensures s2.taken[k].payload < |s.requests|
    {
      assert s2.taken[k] == s.taken[k] == s.accepted[k];
      assert Answers(s.vectors, s.requests, s.accepted[k]);
    }
    var k :| 0 <= k < |s2.taken| && s2.taken[k] == t;
  }
}

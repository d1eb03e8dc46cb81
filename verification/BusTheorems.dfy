/** What the event bus guarantees over whole runs, for every interleaving. */
module BusTheorems {
  import opened Common
  import opened BlockCompare
  import opened BusCore
  import opened BusRuns

  lemma Reachable(vectors: Option<Width>, run: seq<Action>)
    requires Legal(Init(vectors), run)
    ensures Inv(Exec(Init(vectors), run)) && Exec(Init(vectors), run).vectors == vectors
  {
    InvInit(vectors);
    InvRun(Init(vectors), run);
    VectorsFixed(Init(vectors), run);
  }

  lemma {:induction false} VectorsFixed(s: Bus, run: seq<Action>)
    requires Legal(s, run)
    ensures Exec(s, run).vectors == s.vectors
    decreases |run|
  {
    if run != [] {
      VectorsFixed(Next(s, run[0]), run[1..]);
    }
  }

  /** Exactly-once, in order: what the queue accepted is, in the same order, what has been handed
      to callbacks followed by what is still queued; and each accepted buffer was accepted once. */
  lemma DeliveredInOrder(vectors: Option<Width>, run: seq<Action>, p: nat)
    requires Legal(Init(vectors), run)
    ensures var s := Exec(Init(vectors), run);
            && RingOk(s.ring)
            && s.accepted == s.taken + Queue(s.ring)
            && CountOf(s.accepted, p) <= 1
            && CountOf(s.accepted, p) == CountOf(s.taken, p) + CountOf(Queue(s.ring), p)
  {
    Reachable(vectors, run);
    var s := Exec(Init(vectors), run);
    assert InHand(s.producer, p) + CountOf(s.accepted, p) + multiset(s.dropped)[p] <= 1;
    PayloadsConcat(s.taken, Queue(s.ring));
  }

  /** Every buffer `bus_publish` ever copied is in one place: with the publisher, queued, with one
      running callback, freed (once, whether the callback returned or crashed), or dropped. */
  lemma BufferHasOnePlace(vectors: Option<Width>, run: seq<Action>, p: nat)
    requires Legal(Init(vectors), run)
    ensures var s := Exec(Init(vectors), run);
            && RingOk(s.ring)
            && InHand(s.producer, p) + CountOf(Queue(s.ring), p) + Aloft(s.workers, p)
               + multiset(s.freed)[p] + multiset(s.dropped)[p]
               == if p < |s.requests| then 1 else 0
  {
    Reachable(vectors, run);
    DeliveredInOrder(vectors, run, p);
    var s := Exec(Init(vectors), run);
    assert CountOf(s.taken, p) == Aloft(s.workers, p) + multiset(s.freed)[p];
  }

  /** The queue refuses a task only once the bus is shutting down; before that nothing is lost. */
  lemma {:induction false} NothingDroppedBeforeShutdown(s: Bus, run: seq<Action>)
    requires Legal(s, run) && !Exec(s, run).shut
    ensures Exec(s, run).dropped == s.dropped && !s.shut
    decreases |run|
  {
    if run != [] {
      NothingDroppedBeforeShutdown(Next(s, run[0]), run[1..]);
    }
  }

  /** A callback gets the bytes of the publish call its task came from, and belongs to a
      subscription of that plugin to that event. */
  lemma DeliversWhatWasPublished(vectors: Option<Width>, run: seq<Action>, i: nat)
    requires Legal(Init(vectors), run) && i < |Exec(Init(vectors), run).taken|
    ensures Answers(vectors, Exec(Init(vectors), run).requests, Exec(Init(vectors), run).taken[i])
  {
    Reachable(vectors, run);
    assert Exec(Init(vectors), run).accepted[i] == Exec(Init(vectors), run).taken[i];
  }

  /** What is accepted carries the latest subscription that matches at that very moment, since no
      subscription can slip in while the publisher is inside. */
  lemma AcceptsForNewestSubscriber(vectors: Option<Width>, run: seq<Action>, wakes: Option<nat>, u: Sub)
    requires Legal(Init(vectors), run) && Enabled(Exec(Init(vectors), run), Enqueue(wakes))
    requires TryPut(Exec(Init(vectors), run).ring, Exec(Init(vectors), run).shut).Accepted?
    ensures var s := Exec(Init(vectors), run);
            var t := s.producer.task;
            && Next(s, Enqueue(wakes)).accepted == s.accepted + [t]
            && t.sub in s.subs && Matches(vectors, t.sub, s.producer.pluginId, s.producer.event)
            && (u in s.subs && Matches(vectors, u, s.producer.pluginId, s.producer.event) ==> u.node <= t.sub.node)
  {
    Reachable(vectors, run);
    var s := Exec(Init(vectors), run);
    FindSubNewest(vectors, s.subs, s.producer.pluginId, s.producer.event);
  }

  /** A publish can miss the plugin's own subscription to that very name: with 16-byte vectors, a
      16-character name whose copy is followed by other bytes than the published one.  The run is
      one subscription; the publish then changes nothing. */
  lemma PublishCanMiss(pluginId: nat, cb: nat, user: nat, data: seq<Byte>)
    requires pluginId != PLUGIN_ID_INVALID && cb != 0 && data != []
    ensures var event: seq<Byte> := seq(16, _ => 120) + seq(16, _ => 0);
            var copy: seq<Byte> := seq(16, _ => 120) + seq(16, k => if k == 0 then 0 else 1);
            var run := [Subscribe(pluginId, event, copy, cb, user)];
            && IsName(event, Some(16)) && IsName(copy, Some(16)) && Text(copy) == Text(event)
            && Legal(Init(Some(16)), run)
            && var s := Exec(Init(Some(16)), run);
               && Enabled(s, Publish(pluginId, event, data))
               && FindSub(Some(16), s.subs, pluginId, event) == None
               && Next(s, Publish(pluginId, event, data)) == s
  {
    var event: seq<Byte> := seq(16, _ => 120) + seq(16, _ => 0);
    var copy: seq<Byte> := seq(16, _ => 120) + seq(16, k => if k == 0 then 0 else 1);
    EqualStringsMayDiffer();
    MissedNames(copy, event);
    var s0, a := Init(Some(16)), Subscribe(pluginId, event, copy, cb, user);
    assert [a][1..] == [] && Exec(s0, [a]) == Next(s0, a);
    var s := Next(s0, a);
    assert s.subs == [NewSub(s0.eventCount, pluginId, copy, cb, user)];
    FindsTheNamedSubscription(Some(16), s.subs, pluginId, event);
  }

  lemma MissedNames(copy: seq<Byte>, event: seq<Byte>)
    requires copy == seq(16, _ => 120) + seq(16, k => if k == 0 then 0 else 1)
    requires event == seq(16, _ => 120) + seq(16, _ => 0)
    ensures IsName(event, Some(16)) && IsName(copy, Some(16)) && Text(copy) == Text(event)
    ensures !IsShort(event) && !TailsAgree(copy, event, 16)
  {
    assert copy[16] == 0 && event[16] == 0;
    assert StrLen(copy) == 16 && StrLen(event) == 16 && BlockEnd(16, 16) == 32;
    assert copy[17] != event[17];
  }

  /** Every queued or running task points at a node that is still on the list. */
  lemma TaskPointersLive(vectors: Option<Width>, run: seq<Action>, t: Task)
    requires Legal(Init(vectors), run)
    requires var s := Exec(Init(vectors), run);
             RingOk(s.ring) && (t in Queue(s.ring) || Running(t) in s.workers)
    ensures t.sub in Exec(Init(vectors), run).subs
  {
    Reachable(vectors, run);
  }

  // ----- wake-ups -----

  /** A step of the bus's own threads that needs nobody's help: a worker taking the queue's lock or
      ending its callback. */
  predicate IsWorkerStep(a: Action) {
    a.PollQueue? || a.CallbackEnds?
  }

  ghost predicate WorkerCanStep(s: Bus) {
    exists a :: IsWorkerStep(a) && Enabled(s, a)
  }

  lemma ActiveCanStep(s: Bus)
    requires SomeActive(s.workers) && RingOk(s.ring)
    ensures WorkerCanStep(s)
  {
    var i :| 0 <= i < |s.workers| && Active(s.workers[i]);
    assert Enabled(s, PollQueue(i)) || Enabled(s, CallbackEnds(i, false));
  }

  /** Queued work always finds a worker that is neither asleep nor gone, and a publisher waits
      only on a full queue, so it too has a worker on the way that will make room. */
  lemma NoLostWakeups(vectors: Option<Width>, run: seq<Action>)
    requires Legal(Init(vectors), run)
    ensures var s := Exec(Init(vectors), run);
            && (s.ring.count > 0 ==> WorkerCanStep(s))
            && (s.producer.Stuck? ==> s.ring.count == 100 && WorkerCanStep(s))
  {
    Reachable(vectors, run);
    var s := Exec(Init(vectors), run);
    if s.ring.count > 0 {
      ActiveCanStep(s);
    }
  }

  /** Taking a task always lets a waiting publisher go on, and it then finds room. */
  lemma DequeueReleasesPublisher(vectors: Option<Width>, run: seq<Action>, i: nat)
    requires Legal(Init(vectors), run) && Enabled(Exec(Init(vectors), run), PollQueue(i))
    requires Exec(Init(vectors), run).producer.Stuck?
    ensures var s := Next(Exec(Init(vectors), run), PollQueue(i));
            s.producer.Inside? && s.ring.count == 99
  {
    Reachable(vectors, run);
  }

  // ----- shutdown -----

  function Effort(w: Worker): nat {
    match w
    case Running(_) => 2
    case Awake => 1
    case _ => 0
  }

  function Efforts(ws: seq<Worker>): nat {
    if ws == [] then 0 else Effort(ws[0]) + Efforts(ws[1..])
  }

  /** The work left for the workers: each queued task costs a dequeue and a callback. */
  function Rank(s: Bus): nat {
    3 * s.ring.count + Efforts(s.workers)
  }

  lemma {:induction false} EffortsMove(ws: seq<Worker>, i: nat, w: Worker)
    requires i < |ws|
    ensures Efforts(ws[i := w]) + Effort(ws[i]) == Efforts(ws) + Effort(w)
  {
    if i == 0 {
      assert ws[i := w][1..] == ws[1..];
    } else {
      EffortsMove(ws[1..], i - 1, w);
      assert ws[i := w][1..] == ws[1..][i - 1 := w];
    }
  }

  lemma {:induction false} EffortsBounded(ws: seq<Worker>)
    ensures Efforts(ws) <= 2 * |ws|
  {
    if ws != [] {
      EffortsBounded(ws[1..]);
    }
  }

  function WorkerSteps(run: seq<Action>): nat {
    if run == [] then 0 else (if IsWorkerStep(run[0]) then 1 else 0) + WorkerSteps(run[1..])
  }

  lemma ShuttingStep(s: Bus, a: Action)
    requires Inv(s) && s.shut && Enabled(s, a)
    ensures Next(s, a).shut && Next(s, a).ring.count <= s.ring.count
    ensures Rank(Next(s, a)) + (if IsWorkerStep(a) then 1 else 0) <= Rank(s)
  {
    match a {
      case PollQueue(i) => EffortsMove(s.workers, i, Next(s, a).workers[i]);
      case CallbackEnds(i, _) => EffortsMove(s.workers, i, Awake);
      case _ =>
    }
  }

  lemma {:induction false} ShuttingRun(s: Bus, run: seq<Action>)
    requires Inv(s) && s.shut && Legal(s, run)
    ensures Exec(s, run).shut && Exec(s, run).ring.count <= s.ring.count
    ensures WorkerSteps(run) + Rank(Exec(s, run)) <= Rank(s)
    decreases |run|
  {
    if run != [] {
      ShuttingStep(s, run[0]);
      InvStep(s, run[0]);
      ShuttingRun(Next(s, run[0]), run[1..]);
    }
  }

  /** Shutdown drains.  From a shutting-down state the queue only shrinks and the workers take at
      most 310 more steps, whatever else happens; and as long as some worker has not exited, one
      of them can step.  So they all exit, and then the queue is empty and nobody waits on it. */
  lemma ShutdownDrains(vectors: Option<Width>, run: seq<Action>, more: seq<Action>)
    requires Legal(Init(vectors), run) && Exec(Init(vectors), run).shut && Legal(Exec(Init(vectors), run), more)
    ensures var s := Exec(Init(vectors), run);
            var s' := Exec(s, more);
            && s'.ring.count <= s.ring.count
            && WorkerSteps(more) <= Rank(s) <= 310
            && (AllExited(s'.workers) || WorkerCanStep(s'))
            && (AllExited(s'.workers) ==> s'.ring.count == 0 && !s'.producer.Stuck?)
            && |s'.workers| == 5
  {
    Reachable(vectors, run);
    var s := Exec(Init(vectors), run);
    EffortsBounded(s.workers);
    ShuttingRun(s, more);
    InvRun(s, more);
    var s' := Exec(s, more);
    if AllExited(s'.workers) {
      assert s'.workers[0] in s'.workers;
    } else {
      var i :| 0 <= i < |s'.workers| && !s'.workers[i].Exited?;
      assert s'.workers[i] in s'.workers;
      ActiveAt(s'.workers, i);
      ActiveCanStep(s');
    }
  }

  lemma Prefixed(s: Bus, a: Action, rest: seq<Action>) returns (run: seq<Action>)
    requires Enabled(s, a) && Legal(Next(s, a), rest)
    ensures run == [a] + rest && Legal(s, run) && Exec(s, run) == Exec(Next(s, a), rest)
  {
    run := [a] + rest;
    assert run[1..] == rest;
  }

  /** The workers of a shutting-down bus can all be brought to their exit. */
  lemma WorkersCanExit(s: Bus) returns (run: seq<Action>)
    requires Inv(s) && s.shut
    ensures Legal(s, run) && Exec(s, run).shut && AllExited(Exec(s, run).workers)
    ensures Exec(s, run).joined == s.joined
    decreases Rank(s)
  {
    if AllExited(s.workers) {
      run := [];
    } else {
      var i :| 0 <= i < |s.workers| && !s.workers[i].Exited?;
      assert s.workers[i] in s.workers;
      var a := if s.workers[i].Running? then CallbackEnds(i, false) else PollQueue(i);
      ShuttingStep(s, a);
      InvStep(s, a);
      var rest := WorkersCanExit(Next(s, a));
      run := Prefixed(s, a, rest);
    }
  }

  /** With the workers gone, the publisher leaves with its task refused, and the subscriptions are freed. */
  lemma LastStepsFinish(s: Bus) returns (run: seq<Action>)
    requires Inv(s) && s.shut && AllExited(s.workers)
    ensures Legal(s, run) && Exec(s, run).joined
    decreases if s.producer.Outside? then 0 else 1
  {
    if s.joined {
      run := [];
    } else if s.producer.Outside? {
      run := Prefixed(s, FreeSubs, []);
    } else {
      assert s.workers[0] in s.workers;
      InvStep(s, Enqueue(None));
      var rest := LastStepsFinish(Next(s, Enqueue(None)));
      run := Prefixed(s, Enqueue(None), rest);
    }
  }

  lemma {:induction false} LegalConcat(s: Bus, first: seq<Action>, second: seq<Action>)
    requires Legal(s, first) && Legal(Exec(s, first), second)
    ensures Legal(s, first + second) && Exec(s, first + second) == Exec(Exec(s, first), second)
    decreases |first|
  {
    if first == [] {
      assert first + second == second;
    } else {
      LegalConcat(Next(s, first[0]), first[1..], second);
      assert (first + second)[1..] == first[1..] + second;
    }
  }

  /** From every state of every run the bus can be shut down: some continuation sets the flag, drains
      the queue, lets the publisher go and frees the subscriptions. */
  lemma ShutdownCanFinish(vectors: Option<Width>, run: seq<Action>) returns (more: seq<Action>)
    requires Legal(Init(vectors), run)
    ensures Legal(Exec(Init(vectors), run), more)
    ensures var s := Exec(Exec(Init(vectors), run), more);
            s.joined && s.subs == [] && s.producer.Outside? && s.ring.count == 0
  {
    Reachable(vectors, run);
    var s := Exec(Init(vectors), run);
    var flag := if s.shut then [] else [Shutdown];
    FlagIsSet(s, flag);
    var s1 := Exec(s, flag);
    var exits := WorkersCanExit(s1);
    InvRun(s1, exits);
    var last := LastStepsFinish(Exec(s1, exits));
    LegalConcat(s1, exits, last);
    more := flag + (exits + last);
    LegalConcat(s, flag, exits + last);
    InvRun(s, more);
    JoinedHasNoSubs(Init(vectors), run);
    JoinedHasNoSubs(s, more);
    JoinedIsDrained(Exec(s, more));
  }

  /** After `FreeSubs` there are no subscriptions, and none can be made. */
  lemma {:induction false} JoinedHasNoSubs(s: Bus, run: seq<Action>)
    requires Legal(s, run) && (s.joined ==> s.subs == [])
    ensures Exec(s, run).joined ==> Exec(s, run).subs == []
    decreases |run|
  {
    if run != [] {
      JoinedHasNoSubs(Next(s, run[0]), run[1..]);
    }
  }

  lemma JoinedIsDrained(s: Bus)
    requires Inv(s) && s.joined
    ensures s.ring.count == 0 && s.producer.Outside?
  {
    assert s.workers[0] in s.workers;
  }

  lemma FlagIsSet(s: Bus, flag: seq<Action>)
    requires Inv(s) && flag == if s.shut then [] else [Shutdown]
    ensures Legal(s, flag) && Exec(s, flag).shut && Inv(Exec(s, flag))
  {
    if !s.shut {
      InvStep(s, Shutdown);
      assert flag[1..] == [];
      assert Legal(Next(s, Shutdown), flag[1..]) && Exec(Next(s, Shutdown), flag[1..]) == Next(s, Shutdown);
    }
  }

  /** When `bus_shutdown` has joined the workers its loop over leftover tasks has nothing to free. */
  lemma NoLeftovers(vectors: Option<Width>, run: seq<Action>)
    requires Legal(Init(vectors), run) && Exec(Init(vectors), run).shut && AllExited(Exec(Init(vectors), run).workers)
    ensures RingOk(Exec(Init(vectors), run).ring) && Queue(Exec(Init(vectors), run).ring) == []
    ensures forall p :: Aloft(Exec(Init(vectors), run).workers, p) == 0
  {
    Reachable(vectors, run);
    ShutdownDrains(vectors, run, []);
    forall p: nat
      ensures Aloft(Exec(Init(vectors), run).workers, p) == 0
    {
      NoneAloft(Exec(Init(vectors), run).workers, p);
    }
  }
}

/** The event bus as a transition system: five workers, the publishers and the shutdown, every
    interleaving of their critical sections.

    `bus_publish` keeps `sub_mutex` while it may wait for room, so at most one publisher is inside
    at a time; the ones still waiting for `sub_mutex` have done nothing yet and need no state.
    A signal wakes one waiter of the scheduler's choice, a broadcast wakes them all, and any
    waiter may also wake for no reason. */
module BusRuns {
  import opened Common
  import opened BlockCompare
  import opened BusCore

  /** `Awake` workers are on their way to the lock. */
  datatype Worker = Awake | Asleep | Running(task: Task) | Exited

  /** The publisher holding `sub_mutex`: none, on its way to the queue's lock, or waiting for room. */
  datatype Producer =
    | Outside
    | Inside(task: Task, pluginId: nat, event: seq<Byte>)
    | Stuck(task: Task, pluginId: nat, event: seq<Byte>)

  /** The arguments of a publish call that found a subscriber. */
  datatype Request = Request(pluginId: nat, event: seq<Byte>, data: seq<Byte>)

  /** `vectors` is the target's vector size, if it has vectors; it does not change.
      `joined` is set when `bus_shutdown` has joined the workers and freed the subscriptions.
      The last six fields are history: the publish calls, numbered like the buffers they copied;
      tasks accepted and handed out; callbacks invoked; buffers freed; and buffers dropped unfreed
      because the queue refused them. */
  datatype Bus = Bus(
    vectors: Option<Width>, ring: Ring, shut: bool, joined: bool, subs: seq<Sub>, eventCount: nat,
    producer: Producer, workers: seq<Worker>, requests: seq<Request>,
    accepted: seq<Task>, taken: seq<Task>, calls: seq<Call>, freed: seq<nat>, dropped: seq<nat>)

  /** `copy` is the memory `strdup` copied the name into, the bytes behind its terminator included.
      `wakes` is the sleeping worker a signal picks.  `crashed` is how the callback ended. */
  datatype Action =
    | Subscribe(pluginId: nat, event: seq<Byte>, copy: seq<Byte>, cb: nat, user: nat)
    | Publish(pluginId: nat, event: seq<Byte>, data: seq<Byte>)
    | Enqueue(wakes: Option<nat>)
    | ProducerWakes
    | PollQueue(i: nat)
    | WorkerWakes(i: nat)
    | CallbackEnds(i: nat, crashed: bool)
    | Shutdown
    | FreeSubs

  ghost function Init(vectors: Option<Width>): Bus {
    Bus(vectors, Ring(seq(MAX_TASKS, _ => Task(0, [], Sub(0, 0, 0, [], 0, 0))), 0, 0, 0), false, false, [], 1,
        Outside, seq(MAX_WORKERS, _ => Awake), [], [], [], [], [], [])
  }

  predicate IsAt(ws: seq<Worker>, i: nat, w: Worker) {
    i < |ws| && ws[i] == w
  }

  /** Which worker a signal on `cond_not_empty` may wake. */
  ghost predicate SignalMayWake(ws: seq<Worker>, wakes: Option<nat>) {
    match wakes
    case Some(i) => IsAt(ws, i, Asleep)
    case None => Asleep !in ws
  }

  function WakeAll(ws: seq<Worker>): (r: seq<Worker>)
    ensures |r| == |ws|
    ensures forall i :: 0 <= i < |ws| ==> r[i] == if ws[i].Asleep? then Awake else ws[i]
  {
    seq(|ws|, i requires 0 <= i < |ws| => if ws[i].Asleep? then Awake else ws[i])
  }

  predicate AllExited(ws: seq<Worker>) {
    forall i :: 0 <= i < |ws| ==> ws[i].Exited?
  }

  ghost predicate Enabled(s: Bus, a: Action) {
    match a
    case Subscribe(_, event, copy, cb, _) =>
      s.producer.Outside? && !s.joined && cb != 0 && Text(copy) == Text(event)
    case Publish(pluginId, _, data) =>
      s.producer.Outside? && !s.joined && pluginId != PLUGIN_ID_INVALID && data != []
    case Enqueue(wakes) =>
      && s.producer.Inside? && s.ring.tail < |s.ring.slots|
      && (TryPut(s.ring, s.shut).Accepted? ==> SignalMayWake(s.workers, wakes))
    case ProducerWakes => s.producer.Stuck?
    case PollQueue(i) => IsAt(s.workers, i, Awake) && s.ring.head < |s.ring.slots|
    case WorkerWakes(i) => IsAt(s.workers, i, Asleep)
    case CallbackEnds(i, _) => i < |s.workers| && s.workers[i].Running?
    case Shutdown => !s.shut
    case FreeSubs => s.shut && !s.joined && AllExited(s.workers) && s.producer.Outside?
  }

  ghost function Next(s: Bus, a: Action): Bus
    requires Enabled(s, a)
  {
    match a
    case Subscribe(pluginId, _, copy, cb, user) =>
      s.(subs := [NewSub(s.eventCount, pluginId, copy, cb, user)] + s.subs,
         eventCount := s.eventCount + 1)
    case Publish(pluginId, event, data) =>
      (match FindSub(s.vectors, s.subs, pluginId, event)
       case None => s
       case Some(sub) =>
         s.(producer := Inside(Task(|s.requests|, data, sub), pluginId, event),
            requests := s.requests + [Request(pluginId, event, data)]))
    case Enqueue(wakes) =>
      var p := s.producer;
      (match TryPut(s.ring, s.shut)
       case Full => s.(producer := Stuck(p.task, p.pluginId, p.event))
       case Rejected => s.(producer := Outside, dropped := s.dropped + [p.task.payload])
       case Accepted =>
         s.(ring := Put(s.ring, p.task), producer := Outside, accepted := s.accepted + [p.task],
            workers := if wakes.Some? then s.workers[wakes.value := Awake] else s.workers))
    case ProducerWakes => s.(producer := SignalRoom(s.producer))
    case PollQueue(i) =>
      (match Poll(s.ring, s.shut)
       case Sleep => s.(workers := s.workers[i := Asleep])
       case Quit => s.(workers := s.workers[i := Exited])
       case Run(task) =>
         s.(ring := Take(s.ring), workers := s.workers[i := Running(task)],
            taken := s.taken + [task], calls := s.calls + Invoked(task), producer := SignalRoom(s.producer)))
    case WorkerWakes(i) => s.(workers := s.workers[i := Awake])
    case CallbackEnds(i, _) =>
      s.(workers := s.workers[i := Awake], freed := s.freed + [s.workers[i].task.payload])
    case Shutdown => s.(shut := true, workers := WakeAll(s.workers))
    case FreeSubs => s.(joined := true, subs := [])
  }

  /** A signal on `cond_not_full`: only the one publisher inside can be waiting for it. */
  function SignalRoom(p: Producer): Producer {
    if p.Stuck? then Inside(p.task, p.pluginId, p.event) else p
  }

  ghost predicate Legal(s: Bus, run: seq<Action>)
    decreases |run|
  {
    run != [] ==> Enabled(s, run[0]) && Legal(Next(s, run[0]), run[1..])
  }

  ghost function Exec(s: Bus, run: seq<Action>): Bus
    requires Legal(s, run)
    decreases |run|
  {
    if run == [] then s else Exec(Next(s, run[0]), run[1..])
  }

  // ----- the invariant -----

  predicate Active(w: Worker) {
    w.Awake? || w.Running?
  }

  ghost predicate SomeActive(ws: seq<Worker>) {
    exists i :: 0 <= i < |ws| && Active(ws[i])
  }

  /** Work in the queue always has a worker coming for it, and a publisher only waits while the
      queue is full. */
  ghost predicate NoLostWakeup(s: Bus) {
    && |s.workers| == MAX_WORKERS
    && (s.ring.count > 0 ==> SomeActive(s.workers))
    && (s.producer.Stuck? ==> s.ring.count == MAX_TASKS)
    && (s.shut ==> Asleep !in s.workers)
    && (Exited in s.workers ==> s.shut && s.ring.count == 0)
    && (s.joined ==> s.shut && AllExited(s.workers) && s.producer.Outside?)
  }

  /** First in, first out: what was accepted is what was handed out, then what is queued. */
  ghost predicate Fifo(s: Bus) {
    && RingOk(s.ring)
    && s.accepted == s.taken + Queue(s.ring)
  }

  /** How many of the publisher's, a worker's and all workers' hands hold buffer `p`. */
  function InHand(pr: Producer, p: nat): nat {
    if !pr.Outside? && pr.task.payload == p then 1 else 0
  }

  function HeldBy(w: Worker, p: nat): nat {
    if w.Running? && w.task.payload == p then 1 else 0
  }

  function Aloft(ws: seq<Worker>, p: nat): nat {
    if ws == [] then 0 else HeldBy(ws[0], p) + Aloft(ws[1..], p)
  }

  ghost function CountOf(q: seq<Task>, p: nat): nat {
    multiset(Payloads(q))[p]
  }

  /** Every buffer is in the publisher's hand, was accepted, or was refused: one of the three. */
  ghost predicate PublishedOnce(s: Bus) {
    forall p: nat :: InHand(s.producer, p) + CountOf(s.accepted, p) + multiset(s.dropped)[p]
                     == if p < |s.requests| then 1 else 0
  }

  /** Every task handed out is being worked on or has had its buffer freed. */
  ghost predicate HandedOnce(s: Bus) {
    forall p: nat :: CountOf(s.taken, p) == Aloft(s.workers, p) + multiset(s.freed)[p]
  }

  /** Tasks point at nodes that are still on the subscription list. */
  ghost predicate LiveSubs(s: Bus) {
    && RingOk(s.ring)
    && (forall t :: t in Queue(s.ring) ==> t.sub in s.subs)
    && (forall i :: 0 <= i < |s.workers| && s.workers[i].Running? ==> s.workers[i].task.sub in s.subs)
    && (!s.producer.Outside? ==>
          FindSub(s.vectors, s.subs, s.producer.pluginId, s.producer.event) == Some(s.producer.task.sub))
  }

  /** The task is what its publish call asked for: the bytes, and a subscription to the event. */
  ghost predicate Answers(vectors: Option<Width>, requests: seq<Request>, t: Task) {
    && t.payload < |requests|
    && t.bytes == requests[t.payload].data
    && Matches(vectors, t.sub, requests[t.payload].pluginId, requests[t.payload].event)
  }

  ghost predicate Faithful(s: Bus) {
    && (forall i :: 0 <= i < |s.accepted| ==> Answers(s.vectors, s.requests, s.accepted[i]))
    && (!s.producer.Outside? ==> Answers(s.vectors, s.requests, s.producer.task))
  }

  /** Later subscriptions stand before earlier ones. */
  ghost predicate NewestFirst(s: Bus) {
    && (forall i, j :: 0 <= i < j < |s.subs| ==> s.subs[j].node < s.subs[i].node)
    && forall i :: 0 <= i < |s.subs| ==> s.subs[i].node < s.eventCount
  }

  ghost predicate Inv(s: Bus) {
    && NoLostWakeup(s) && Fifo(s) && PublishedOnce(s) && HandedOnce(s) && LiveSubs(s)
    && Faithful(s) && NewestFirst(s)
  }

  // ----- each step keeps it -----

  lemma FifoStep(s: Bus, a: Action)
    requires Enabled(s, a) && Fifo(s)
    ensures Fifo(Next(s, a))
  {
    match a {
      case Enqueue(_) =>
        if TryPut(s.ring, s.shut).Accepted? {
          PutAppends(s.ring, s.producer.task);
        }
      case PollQueue(i) =>
        if Poll(s.ring, s.shut).Run? {
          TakeRemovesFirst(s.ring);
        }
      case _ =>
    }
  }

  lemma ActiveAt(ws: seq<Worker>, i: nat)
    requires i < |ws| && Active(ws[i])
    ensures SomeActive(ws)
  {
  }

  lemma WakeStep(s: Bus, a: Action)
    requires Enabled(s, a) && NoLostWakeup(s) && RingOk(s.ring)
    ensures NoLostWakeup(Next(s, a))
  {
    var s' := Next(s, a);
    match a {
      case Enqueue(wakes) =>
        if TryPut(s.ring, s.shut).Accepted? {
          if wakes.Some? {
            ActiveAt(s'.workers, wakes.value);
          } else {
            assert !s.workers[0].Exited? && !s.workers[0].Asleep?;
            ActiveAt(s'.workers, 0);
          }
        }
      case PollQueue(i) =>
        if Poll(s.ring, s.shut).Run? {
          ActiveAt(s'.workers, i);
        }
      case WorkerWakes(i) =>
        ActiveAt(s'.workers, i);
      case CallbackEnds(i, _) =>
        ActiveAt(s'.workers, i);
      case Shutdown =>
        if s.ring.count > 0 {
          var i :| 0 <= i < |s.workers| && Active(s.workers[i]);
          ActiveAt(s'.workers, i);
        }
      case _ =>
    }
  }

  lemma {:induction false} MoveWorker(ws: seq<Worker>, i: nat, w: Worker, p: nat)
    requires i < |ws|
    ensures Aloft(ws[i := w], p) + HeldBy(ws[i], p) == Aloft(ws, p) + HeldBy(w, p)
  {
    if i == 0 {
      assert ws[i := w][1..] == ws[1..];
    } else {
      MoveWorker(ws[1..], i - 1, w, p);
      assert ws[i := w][1..] == ws[1..][i - 1 := w];
    }
  }

  lemma {:induction false} AloftWakeAll(ws: seq<Worker>, p: nat)
    ensures Aloft(WakeAll(ws), p) == Aloft(ws, p)
  {
    if ws != [] {
      AloftWakeAll(ws[1..], p);
      assert WakeAll(ws)[1..] == WakeAll(ws[1..]);
    }
  }

  lemma CountAppend(q: seq<Task>, t: Task, p: nat)
    ensures CountOf(q + [t], p) == CountOf(q, p) + if t.payload == p then 1 else 0
  {
    PayloadsConcat(q, [t]);
    assert Payloads([t]) == [t.payload];
  }

  lemma EnqueuePublishes(s: Bus, a: Action, p: nat)
    requires Enabled(s, a) && a.Enqueue?
    ensures var s' := Next(s, a);
            CountOf(s'.accepted, p) + InHand(s'.producer, p) + multiset(s'.dropped)[p]
            == CountOf(s.accepted, p) + InHand(s.producer, p) + multiset(s.dropped)[p]
  {
    CountAppend(s.accepted, s.producer.task, p);
    match TryPut(s.ring, s.shut) {
      case Full =>
      case Rejected =>
      case Accepted =>
    }
  }

  lemma PublishTakesBuffer(s: Bus, a: Action)
    requires Enabled(s, a) && PublishedOnce(s) && a.Publish?
    ensures PublishedOnce(Next(s, a))
  {
  }

  /** Only the publisher's own steps concern what has been published. */
  lemma PublishedFrame(s: Bus, a: Action, p: nat)
    requires Enabled(s, a) && !a.Publish? && !a.Enqueue?
    ensures var s' := Next(s, a);
            && s'.accepted == s.accepted && s'.dropped == s.dropped && s'.requests == s.requests
            && InHand(s'.producer, p) == InHand(s.producer, p)
  {
  }

  lemma PublishedStep(s: Bus, a: Action)
    requires Enabled(s, a) && PublishedOnce(s)
    ensures PublishedOnce(Next(s, a))
  {
    if a.Publish? {
      PublishTakesBuffer(s, a);
    } else if a.Enqueue? {
      forall p: nat {
        EnqueuePublishes(s, a, p);
      }
    } else {
      forall p: nat {
        PublishedFrame(s, a, p);
      }
    }
  }

  lemma PollHands(s: Bus, i: nat, p: nat)
    requires Enabled(s, PollQueue(i))
    ensures var s' := Next(s, PollQueue(i));
            CountOf(s'.taken, p) + Aloft(s.workers, p) == CountOf(s.taken, p) + Aloft(s'.workers, p)
  {
    var s' := Next(s, PollQueue(i));
    MoveWorker(s.workers, i, s'.workers[i], p);
    if Poll(s.ring, s.shut).Run? {
      CountAppend(s.taken, Poll(s.ring, s.shut).task, p);
    }
  }

  lemma ReturnFrees(s: Bus, a: Action, p: nat)
    requires Enabled(s, a) && a.CallbackEnds?
    ensures var s' := Next(s, a);
            Aloft(s'.workers, p) + multiset(s'.freed)[p] == Aloft(s.workers, p) + multiset(s.freed)[p]
  {
    MoveWorker(s.workers, a.i, Awake, p);
  }

  lemma WakingHoldsNothing(s: Bus, a: Action, p: nat)
    requires Enabled(s, a) && (a.Enqueue? || a.WorkerWakes? || a.Shutdown?)
    ensures Aloft(Next(s, a).workers, p) == Aloft(s.workers, p)
  {
    match a {
      case Enqueue(wakes) =>
        if TryPut(s.ring, s.shut).Accepted? && wakes.Some? {
          MoveWorker(s.workers, wakes.value, Awake, p);
        }
      case WorkerWakes(i) => MoveWorker(s.workers, i, Awake, p);
      case Shutdown => AloftWakeAll(s.workers, p);
    }
  }

  lemma HandedAt(s: Bus, a: Action, p: nat)
    requires Enabled(s, a)
    ensures var s' := Next(s, a);
            CountOf(s'.taken, p) + Aloft(s.workers, p) + multiset(s.freed)[p]
            == CountOf(s.taken, p) + Aloft(s'.workers, p) + multiset(s'.freed)[p]
  {
    if a.PollQueue? {
      PollHands(s, a.i, p);
    } else if a.CallbackEnds? {
      ReturnFrees(s, a, p);
    } else if a.Enqueue? || a.WorkerWakes? || a.Shutdown? {
      WakingHoldsNothing(s, a, p);
    }
  }

  lemma HandedStep(s: Bus, a: Action)
    requires Enabled(s, a) && HandedOnce(s)
    ensures HandedOnce(Next(s, a))
  {
    forall p: nat {
      HandedAt(s, a, p);
    }
  }

  lemma FoundIsListed(vectors: Option<Width>, subs: seq<Sub>, pluginId: nat, event: seq<Byte>)
    ensures FindSub(vectors, subs, pluginId, event).Some? ==> FindSub(vectors, subs, pluginId, event).value in subs
  {
  }

  lemma LiveStep(s: Bus, a: Action)
    requires Enabled(s, a) && LiveSubs(s) && NoLostWakeup(s)
    ensures LiveSubs(Next(s, a))
  {
    match a {
      case Enqueue(wakes) =>
        if TryPut(s.ring, s.shut).Accepted? {
          PutAppends(s.ring, s.producer.task);
          FoundIsListed(s.vectors, s.subs, s.producer.pluginId, s.producer.event);
        }
      case PollQueue(i) =>
        if Poll(s.ring, s.shut).Run? {
          TakeRemovesFirst(s.ring);
        }
      case FreeSubs =>
        assert s.workers[0].Exited?;
        assert Queue(s.ring) == [];
      case _ =>
    }
  }

  lemma FaithfulStep(s: Bus, a: Action)
    requires Enabled(s, a) && Faithful(s)
    ensures Faithful(Next(s, a))
  {
    if a.Publish? {
      FindSubNewest(s.vectors, s.subs, a.pluginId, a.event);
    }
  }

  lemma OrderStep(s: Bus, a: Action)
    requires Enabled(s, a) && NewestFirst(s)
    ensures NewestFirst(Next(s, a))
  {
  }

  lemma InvStep(s: Bus, a: Action)
    requires Enabled(s, a) && Inv(s)
    ensures Inv(Next(s, a))
  {
    FifoStep(s, a);
    WakeStep(s, a);
    PublishedStep(s, a);
    HandedStep(s, a);
    LiveStep(s, a);
    FaithfulStep(s, a);
    OrderStep(s, a);
  }

  lemma {:induction false} InvRun(s: Bus, run: seq<Action>)
    requires Inv(s) && Legal(s, run)
    ensures Inv(Exec(s, run))
    decreases |run|
  {
    if run != [] {
      InvStep(s, run[0]);
      InvRun(Next(s, run[0]), run[1..]);
    }
  }

  lemma {:induction false} NoneAloft(ws: seq<Worker>, p: nat)
    requires forall i :: 0 <= i < |ws| ==> !ws[i].Running?
    ensures Aloft(ws, p) == 0
  {
    if ws != [] {
      NoneAloft(ws[1..], p);
    }
  }

  lemma InvInit(vectors: Option<Width>)
    ensures Inv(Init(vectors))
  {
    var s := Init(vectors);
    assert Payloads([]) == [] && Queue(s.ring) == [];
    forall p: nat
      ensures Aloft(s.workers, p) == 0 && CountOf([], p) == 0
    {
      NoneAloft(s.workers, p);
    }
  }
}

/** The event bus's shared data as values: the bounded task ring and the subscription list. */
module BusCore {
  import opened Common
  import opened BlockCompare

  const MAX_TASKS := 100
  const MAX_WORKERS := 5
  const PLUGIN_ID_INVALID := 0
  const EVENT_ID_RANGE := 0x1_0000

  /** A subscription node.  `node` is its identity as an allocation; the 16-bit `eventId` may repeat.
      `event` is the memory of its copy of the event's name, terminator and what follows included. */
  datatype Sub = Sub(node: nat, eventId: nat, pluginId: nat, event: seq<Byte>, cb: nat, user: nat)

  /** The node `bus_subscribe` fills in. */
  function NewSub(eventCount: nat, pluginId: nat, event: seq<Byte>, cb: nat, user: nat): Sub {
    Sub(eventCount, eventCount % EVENT_ID_RANGE, pluginId, event, cb, user)
  }

  /** A queued task.  `payload` identifies the buffer holding the copied `bytes`. */
  datatype Task = Task(payload: nat, bytes: seq<Byte>, sub: Sub)

  /** A callback as a worker invokes it: the function, the bytes and the subscriber's argument. */
  datatype Call = Call(cb: nat, bytes: seq<Byte>, user: nat)

  /** What a worker calls for a task: nothing if the subscription has no callback. */
  function Invoked(t: Task): seq<Call> {
    if t.sub.cb != 0 then [Call(t.sub.cb, t.bytes, t.sub.user)] else []
  }

  datatype Ring = Ring(slots: seq<Task>, head: nat, tail: nat, count: nat)

  /** What `enqueue_task` does with the lock held. */
  datatype PutOutcome = Full | Rejected | Accepted

  /** What a worker does with the lock held. */
  datatype PollOutcome = Sleep | Quit | Run(task: Task)

  ghost predicate RingOk(r: Ring) {
    && |r.slots| == MAX_TASKS
    && r.head < MAX_TASKS && r.count <= MAX_TASKS
    && r.tail == (r.head + r.count) % MAX_TASKS
  }

  /** The ring read from `head`, modulo its size. */
  ghost function Queue(r: Ring): (q: seq<Task>)
    requires RingOk(r)
    ensures |q| == r.count
  {
    seq(r.count, i requires 0 <= i < r.count => r.slots[(r.head + i) % MAX_TASKS])
  }

  function Put(r: Ring, t: Task): Ring
    requires r.tail < |r.slots|
  {
    Ring(r.slots[r.tail := t], r.head, (r.tail + 1) % MAX_TASKS, r.count + 1)
  }

  function Take(r: Ring): Ring
    requires 0 < r.count
  {
    Ring(r.slots, (r.head + 1) % MAX_TASKS, r.tail, r.count - 1)
  }

  /** The outcome of an enqueue attempt, in the order the code tests. */
  function TryPut(r: Ring, shut: bool): PutOutcome {
    if r.count == MAX_TASKS && !shut then Full
    else if shut then Rejected
    else Accepted
  }

  function Poll(r: Ring, shut: bool): PollOutcome
    requires r.head < |r.slots|
  {
    if r.count == 0 && !shut then Sleep
    else if shut && r.count == 0 then Quit
    else Run(r.slots[r.head])
  }

  /** Positions in the ring, without the modulo. */
  lemma Wraps(n: nat)
    requires n < 2 * MAX_TASKS
    ensures n % MAX_TASKS == if n < MAX_TASKS then n else n - MAX_TASKS
  {
  }

  lemma PutAppends(r: Ring, t: Task)
    requires RingOk(r) && r.count < MAX_TASKS
    ensures RingOk(Put(r, t)) && Queue(Put(r, t)) == Queue(r) + [t]
  {
    var r' := Put(r, t);
    Wraps(r.head + r.count);
    Wraps(r.tail + 1);
    Wraps(r.head + r.count + 1);
    forall i | 0 <= i < r.count
      ensures Queue(r')[i] == Queue(r)[i]
    {
      Wraps(r.head + i);
    }
    assert Queue(r')[r.count] == t;
  }

  lemma TakeRemovesFirst(r: Ring)
    requires RingOk(r) && 0 < r.count
    ensures RingOk(Take(r)) && Queue(r) == [r.slots[r.head]] + Queue(Take(r))
  {
  }

  /** The test of `bus_publish`, on a target with the given vectors. */
  ghost predicate Matches(vectors: Option<Width>, s: Sub, pluginId: nat, event: seq<Byte>) {
    s.pluginId == pluginId && SameName(vectors, s.event, event)
  }

  /** The list is searched from its head, where the newest subscription is. */
  ghost function FindSub(vectors: Option<Width>, subs: seq<Sub>, pluginId: nat, event: seq<Byte>): Option<Sub> {
    if subs == [] then None
    else if Matches(vectors, subs[0], pluginId, event) then Some(subs[0])
    else FindSub(vectors, subs[1..], pluginId, event)
  }

  lemma {:induction false} FindSubAt(vectors: Option<Width>, subs: seq<Sub>, pluginId: nat, event: seq<Byte>, k: nat)
    requires k <= |subs| && forall i :: 0 <= i < k ==> !Matches(vectors, subs[i], pluginId, event)
    ensures FindSub(vectors, subs, pluginId, event) == FindSub(vectors, subs[k..], pluginId, event)
  {
    if k > 0 {
      FindSubAt(vectors, subs[1..], pluginId, event, k - 1);
      assert subs[1..][k - 1..] == subs[k..];
    }
  }

  /** A search fails exactly when nothing matches, and otherwise yields the newest match: the one
      no earlier entry of the list matches before. */
  lemma {:induction false} FindSubNewest(vectors: Option<Width>, subs: seq<Sub>, pluginId: nat, event: seq<Byte>)
    ensures FindSub(vectors, subs, pluginId, event) == None <==>
            forall i :: 0 <= i < |subs| ==> !Matches(vectors, subs[i], pluginId, event)
    ensures FindSub(vectors, subs, pluginId, event).Some? ==>
              exists k :: 0 <= k < |subs| && subs[k] == FindSub(vectors, subs, pluginId, event).value
                          && Matches(vectors, subs[k], pluginId, event)
                          && forall i :: 0 <= i < k ==> !Matches(vectors, subs[i], pluginId, event)
  {
    var k := 0;
    while k < |subs| && !Matches(vectors, subs[k], pluginId, event)
      invariant k <= |subs| && forall i :: 0 <= i < k ==> !Matches(vectors, subs[i], pluginId, event)
    {
      k := k + 1;
    }
    FindSubAt(vectors, subs, pluginId, event, k);
  }

  lemma SameTextSameLength(a: seq<Byte>, b: seq<Byte>)
    requires Text(a) == Text(b)
    ensures StrLen(a) == StrLen(b)
  {
    assert |Text(a)| == |Text(b)|;
  }

  /** The subscription is the plugin's and bears the published name, in memory that compares equal:
      any memory on a target without vectors or for a short name, and otherwise memory that agrees
      behind the terminator up to the end of its block. */
  ghost predicate Named(vectors: Option<Width>, u: Sub, pluginId: nat, event: seq<Byte>) {
    && u.pluginId == pluginId && Text(u.event) == Text(event)
    && (vectors.None? || |Text(event)| < 16 || TailsAgree(u.event, event, vectors.value))
  }

  lemma NamedMatches(vectors: Option<Width>, u: Sub, pluginId: nat, event: seq<Byte>)
    ensures Named(vectors, u, pluginId, event) <==> Matches(vectors, u, pluginId, event)
  {
    if Text(u.event) == Text(event) {
      SameTextSameLength(u.event, event);
    }
  }

  /** Exactly which publishes find a subscription: those to a name the plugin has subscribed to, on a
      target without vectors, or if the name is short, or if the bytes behind the two terminators
      agree for some subscription of that name.  What is found is the newest of these. */
  lemma FindsTheNamedSubscription(vectors: Option<Width>, subs: seq<Sub>, pluginId: nat, event: seq<Byte>)
    ensures var found := FindSub(vectors, subs, pluginId, event);
            && (found.Some? <==> exists i :: 0 <= i < |subs| && Named(vectors, subs[i], pluginId, event))
            && (found.Some? ==>
                  exists k :: 0 <= k < |subs| && subs[k] == found.value
                              && Named(vectors, subs[k], pluginId, event)
                              && forall i :: 0 <= i < k ==> !Named(vectors, subs[i], pluginId, event))
  {
    FindSubNewest(vectors, subs, pluginId, event);
    forall i | 0 <= i < |subs|
      ensures Named(vectors, subs[i], pluginId, event) <==> Matches(vectors, subs[i], pluginId, event)
    {
      NamedMatches(vectors, subs[i], pluginId, event);
    }
  }

  ghost function Payloads(q: seq<Task>): (r: seq<nat>)
    ensures |r| == |q|
  {
    seq(|q|, i requires 0 <= i < |q| => q[i].payload)
  }

  lemma PayloadsConcat(a: seq<Task>, b: seq<Task>)
    ensures Payloads(a + b) == Payloads(a) + Payloads(b)
  {
  }
}

/** The event bus's shared data as the code keeps it: an array used as a ring and a chain of
    subscription nodes, both updated in place.  Each method is one critical section. */
module BusShared {
  import opened Common
  import opened BlockCompare
  import opened BusCore

  const BUS_OK := 0
  const BUS_PUBLISH_ERR_INVALID_PLUGIN_ID := 1
  const BUS_PUBLISH_ERR_INVALID_DATA := 2
  const BUS_PUBLISH_ERR_INVALID_LENGTH := 3
  const BUS_PUBLISH_ERR_EVENT_NOT_FOUND := 4
  const BUS_PUBLISH_ERR_MALLOC_FAILED := 5
  const BUS_SUB_ERR_INVALID_EVENT := 2
  const BUS_SUB_ERR_INVALID_CB := 3
  const BUS_SUB_ERR_ALLOC_FAILED := 4
  const BUS_SUB_ERR_STRDUP_FAILED := 5

  class TaskQueue {
    var tasks: array<Task>
    var head: nat
    var tail: nat
    var count: nat
    var shutDown: bool

    ghost predicate Valid()
      reads this, tasks
    {
      RingOk(State())
    }

    ghost function State(): Ring
      reads this, tasks
    {
      Ring(tasks[..], head, tail, count)
    }

    constructor ()
      ensures Valid() && fresh(tasks) && Queue(State()) == [] && !shutDown
    {
      tasks := new Task[MAX_TASKS];
      head, tail, count, shutDown := 0, 0, 0, false;
    }

    /** The body of `enqueue_task` between taking the lock and either waiting or unlocking. */
    method Enqueue(task: Task) returns (o: PutOutcome)
      requires Valid()
      modifies this, tasks
      ensures Valid() && tasks == old(tasks) && shutDown == old(shutDown)
      ensures o == TryPut(old(State()), shutDown)
      ensures o == if shutDown then Rejected else if old(count) == 100 then Full else Accepted
      ensures State() == if o.Accepted? then Put(old(State()), task) else old(State())
      ensures Queue(State()) == old(Queue(State())) + if o.Accepted? then [task] else []
    {
      if count == MAX_TASKS && !shutDown {
        return Full;
      }
      if shutDown {
        return Rejected;
      }
      PutAppends(State(), task);
      tasks[tail] := task;
      tail := (tail + 1) % MAX_TASKS;
      count := count + 1;
      return Accepted;
    }

    /** The body of a worker's loop between taking the lock and waiting, leaving or unlocking. */
    method Dequeue() returns (o: PollOutcome)
      requires Valid()
      modifies this
      ensures Valid() && tasks == old(tasks) && shutDown == old(shutDown)
      ensures o == Poll(old(State()), shutDown)
      ensures o.Run? <==> old(count) > 0
      ensures old(count) == 0 ==> o == if shutDown then Quit else Sleep
      ensures State() == if o.Run? then Take(old(State())) else old(State())
      ensures old(Queue(State())) == (if o.Run? then [o.task] else []) + Queue(State())
    {
      if count == 0 && !shutDown {
        return Sleep;
      }
      if shutDown && count == 0 {
        return Quit;
      }
      TakeRemovesFirst(State());
      var task := tasks[head];
      head := (head + 1) % MAX_TASKS;
      count := count - 1;
      return Run(task);
    }

    /** The loop of `bus_shutdown` that frees what the workers left behind. */
    method Leftovers() returns (freed: seq<nat>)
      requires Valid()
      ensures freed == Payloads(Queue(State()))
    {
      freed := [];
      var i := 0;
      while i < count
        invariant i <= count
        invariant freed == Payloads(Queue(State()))[..i]
      {
        var index := (head + i) % MAX_TASKS;
        freed := freed + [tasks[index].payload];
        i := i + 1;
      }
    }
  }

  class SubNode {
    const sub: Sub
    var next: SubNode?

    constructor (sub: Sub)
      ensures this.sub == sub && next == null
    {
      this.sub := sub;
      next := null;
    }
  }

  ghost function NodeAt(nodes: seq<SubNode>, i: int): SubNode? {
    if 0 <= i < |nodes| then nodes[i] else null
  }

  ghost function SubsOf(nodes: seq<SubNode>): (r: seq<Sub>)
    ensures |r| == |nodes| && forall i :: 0 <= i < |nodes| ==> r[i] == nodes[i].sub
  {
    seq(|nodes|, i requires 0 <= i < |nodes| => nodes[i].sub)
  }

  class Subscriptions {
    const vectors: Option<Width>
    var first: SubNode?
    var eventCount: nat
    ghost var nodes: seq<SubNode>

    ghost predicate Valid()
      reads this, nodes
    {
      && first == NodeAt(nodes, 0)
      && (forall i, j :: 0 <= i < j < |nodes| ==> nodes[i] != nodes[j])
      && (forall i {:trigger nodes[i].next} :: 0 <= i < |nodes| ==> nodes[i].next == NodeAt(nodes, i + 1))
      && (forall i :: 0 <= i < |nodes| ==> IsName(nodes[i].sub.event, vectors))
    }

    ghost function Contents(): seq<Sub>
      reads this
    {
      SubsOf(nodes)
    }

    constructor (vectors: Option<Width>)
      ensures Valid() && Contents() == [] && eventCount == 1 && this.vectors == vectors
    {
      this.vectors := vectors;
      first, eventCount, nodes := null, 1, [];
    }

    /** `bus_subscribe`.  `memory` says whether `malloc` succeeded, `dup` is the memory `strdup` copied
        the name into, or nothing if it failed. */
    method Subscribe(pluginId: nat, event: Option<seq<Byte>>, cb: nat, user: nat, memory: bool,
                     dup: Option<seq<Byte>>) returns (r: int)
      requires Valid()
      requires event.Some? && dup.Some? ==> IsName(dup.value, vectors) && Text(dup.value) == Text(event.value)
      modifies this
      ensures Valid()
      ensures r == if event.None? then 2 else if cb == 0 then 3 else if !memory then 4 else if dup.None? then 5 else 0
      ensures r == BUS_OK ==>
                && Contents() == [NewSub(old(eventCount), pluginId, dup.value, cb, user)] + old(Contents())
                && Contents()[0].pluginId == pluginId && Contents()[0].event == dup.value
                && Contents()[0].cb == cb && Contents()[0].user == user
                && Contents()[0].node == old(eventCount) && Contents()[0].eventId == old(eventCount) % 0x1_0000
                && eventCount == old(eventCount) + 1
                && nodes[1..] == old(nodes)
      ensures r != BUS_OK ==> nodes == old(nodes) && eventCount == old(eventCount)
    {
      if event.None? {
        return BUS_SUB_ERR_INVALID_EVENT;
      }
      if cb == 0 {
        return BUS_SUB_ERR_INVALID_CB;
      }
      if !memory {
        return BUS_SUB_ERR_ALLOC_FAILED;
      }
      if dup.None? {
        return BUS_SUB_ERR_STRDUP_FAILED;
      }
      var s := new SubNode(NewSub(eventCount, pluginId, dup.value, cb, user));
      eventCount := eventCount + 1;
      s.next := first;
      first := s;
      nodes := [s] + nodes;
      return BUS_OK;
    }

    /** The search of `bus_publish`: the first node, from the head, that matches. */
    method Find(pluginId: nat, event: seq<Byte>) returns (found: SubNode?)
      requires Valid() && IsName(event, vectors)
      ensures found == null <==> FindSub(vectors, Contents(), pluginId, event) == None
      ensures found != null ==>
                && found in nodes
                && FindSub(vectors, Contents(), pluginId, event) == Some(found.sub)
    {
      var it := first;
      ghost var k := 0;
      while it != null
        invariant 0 <= k <= |nodes| && it == NodeAt(nodes, k)
        invariant forall i :: 0 <= i < k ==> !Matches(vectors, Contents()[i], pluginId, event)
        decreases |nodes| - k
      {
        if it.sub.pluginId == pluginId {
          var cmp := OptimizedStrcmp(it.sub.event, event, vectors);
          if cmp == 0 {
            FindSubAt(vectors, Contents(), pluginId, event, k);
            return it;
          }
        }
        it := it.next;
        k := k + 1;
      }
      FindSubAt(vectors, Contents(), pluginId, event, k);
      return null;
    }

    ghost predicate SomeNamed(pluginId: nat, event: seq<Byte>)
      reads this
    {
      exists i :: 0 <= i < |Contents()| && Named(vectors, Contents()[i], pluginId, event)
    }

    /** `bus_publish` up to the call of `enqueue_task`: on `BUS_OK` the task to enqueue is returned.
        `data` is the caller's buffer cut to its length, `payload` the buffer `malloc` returns and
        `memory` whether it did. */
    method Prepare(pluginId: nat, event: seq<Byte>, data: Option<seq<Byte>>, payload: nat, memory: bool)
      returns (r: int, task: Option<Task>)
      requires Valid() && IsName(event, vectors)
      ensures r == if pluginId == 0 then 1 else if data.None? then 2 else if data.value == [] then 3
                   else if !SomeNamed(pluginId, event) then 4 else if !memory then 5 else 0
      ensures task.Some? <==> r == BUS_OK
      ensures r == BUS_OK ==>
                && task.value.payload == payload && task.value.bytes == data.value
                && FindSub(vectors, Contents(), pluginId, event) == Some(task.value.sub)
      ensures r == BUS_OK ==>
                exists k :: && 0 <= k < |Contents()| && Contents()[k] == task.value.sub
                            && Named(vectors, Contents()[k], pluginId, event)
                            && forall i :: 0 <= i < k ==> !Named(vectors, Contents()[i], pluginId, event)
    {
      if pluginId == PLUGIN_ID_INVALID {
        return BUS_PUBLISH_ERR_INVALID_PLUGIN_ID, None;
      }
      if data.None? {
        return BUS_PUBLISH_ERR_INVALID_DATA, None;
      }
      if data.value == [] {
        return BUS_PUBLISH_ERR_INVALID_LENGTH, None;
      }
      var it := Find(pluginId, event);
      FindsTheNamedSubscription(vectors, Contents(), pluginId, event);
      if it == null {
        return BUS_PUBLISH_ERR_EVENT_NOT_FOUND, None;
      }
      if !memory {
        return BUS_PUBLISH_ERR_MALLOC_FAILED, None;
      }
      return BUS_OK, Some(Task(payload, data.value, it.sub));
    }
  }
}

/** The timer list as the scheduler keeps it: a singly linked chain updated in place.

    `nodes` and `contents` are the chain as a sequence, of nodes and of their values.  Every
    method is one critical section and is proved to compute the matching function of
    `SchedulerCore` on `State()`. */
module SchedulerChain {
  import opened Clock
  import opened TimerOrder
  import opened SchedulerCore

  class TimerNode {
    var id: int
    var due: nat
    var interval: nat
    var cb: nat
    var user: nat
    var pluginId: nat
    var repeating: bool
    var next: TimerNode?

    ghost function Value(): Timer
      reads this
    {
      Timer(id, due, interval, cb, user, pluginId, repeating)
    }

    constructor (id: int, due: nat, interval: nat, cb: nat, user: nat, pluginId: nat, repeating: bool)
      ensures Value() == Timer(id, due, interval, cb, user, pluginId, repeating)
      ensures next == null
    {
      this.id, this.due, this.interval := id, due, interval;
      this.cb, this.user, this.pluginId, this.repeating := cb, user, pluginId, repeating;
      next := null;
    }
  }

  /** `due` is `ms` milliseconds after the reading, or 2^64 less if the 64-bit sum overflows. */
  predicate DueAfter(due: nat, reading: Timespec, ms: nat) {
    var sum := Millis(reading) + ms;
    && (sum < 0x1_0000_0000_0000_0000 ==> due == sum)
    && (0x1_0000_0000_0000_0000 <= sum < 2 * 0x1_0000_0000_0000_0000 ==> due == sum - 0x1_0000_0000_0000_0000)
  }

  lemma WrapsOnceAt(reading: Timespec, ms: nat)
    ensures DueAfter(Wrap64(Millis(reading) + ms), reading, ms)
  {
    if Millis(reading) + ms < 2 * TWO_POW_64 {
      WrapsOnce(Millis(reading) + ms);
    }
  }

  /** The node at a position of the chain; one past the last is the null pointer. */
  ghost function NodeAt(nodes: seq<TimerNode>, i: int): TimerNode? {
    if 0 <= i < |nodes| then nodes[i] else null
  }

  class Scheduler {
    var timers: TimerNode?
    var nextId: int
    var running: bool
    ghost var nodes: seq<TimerNode>
    ghost var contents: seq<Timer>
    ghost var freed: seq<int>

    /** The chain from `timers` visits `nodes` once each, in order, and ends in null. */
    ghost predicate Valid()
      reads this, nodes
    {
      && |contents| == |nodes|
      && (forall i :: 0 <= i < |nodes| ==> nodes[i].Value() == contents[i])
      && (forall i, j :: 0 <= i < j < |nodes| ==> nodes[i] != nodes[j])
      && timers == NodeAt(nodes, 0)
      && (forall i {:trigger nodes[i].next} :: 0 <= i < |nodes| ==> nodes[i].next == NodeAt(nodes, i + 1))
    }

    ghost function State(): Core
      reads this
    {
      Core(contents, nextId, running, freed)
    }

    constructor ()
      ensures Valid() && State() == Core([], 1, true, []) && nodes == []
    {
      timers, nextId, running := null, 1, true;
      nodes, contents, freed := [], [], [];
    }

    method LinkFirst(t: TimerNode)
      requires Valid() && t !in nodes
      modifies `timers, `nodes, `contents, t`next
      ensures Valid()
      ensures nodes == [t] + old(nodes) && contents == [t.Value()] + old(contents)
    {
      t.next := timers;
      timers := t;
      nodes, contents := [t] + nodes, [t.Value()] + contents;
    }

    method LinkAfter(it: TimerNode, t: TimerNode, ghost k: nat)
      requires Valid() && t !in nodes
      requires k < |nodes| && it == nodes[k]
      modifies `nodes, `contents, t`next, it`next
      ensures Valid()
      ensures nodes == old(nodes[..k + 1] + [t] + nodes[k + 1..])
      ensures contents == old(contents)[..k + 1] + [t.Value()] + old(contents)[k + 1..]
    {
      t.next := it.next;
      it.next := t;
      nodes := nodes[..k + 1] + [t] + nodes[k + 1..];
      contents := contents[..k + 1] + [t.Value()] + contents[k + 1..];
    }

    method Unlink(prev: TimerNode?, it: TimerNode, ghost k: nat)
      requires Valid()
      requires k < |nodes| && it == nodes[k] && prev == NodeAt(nodes, k - 1)
      modifies `timers, `nodes, `contents, nodes`next
      ensures Valid()
      ensures nodes == old(nodes[..k] + nodes[k + 1..])
      ensures contents == old(contents[..k] + contents[k + 1..])
    {
      if prev != null {
        prev.next := it.next;
      } else {
        timers := it.next;
      }
      nodes, contents := nodes[..k] + nodes[k + 1..], contents[..k] + contents[k + 1..];
    }

    /** The walk of `insert_timer`: the last node of the leading ones due no later than `due`. */
    method LastNotLater(due: nat) returns (it: TimerNode, ghost k: nat)
      requires Valid() && timers != null && timers.due <= due
      ensures k < |nodes| && it == nodes[k]
      ensures forall i :: 0 <= i <= k ==> contents[i].due <= due
      ensures k + 1 < |contents| ==> due < contents[k + 1].due
    {
      it, k := timers, 0;
      while it.next != null && it.next.due <= due
        invariant 0 <= k < |nodes| && it == nodes[k]
        invariant forall i :: 0 <= i <= k ==> contents[i].due <= due
        decreases |nodes| - k
      {
        it := it.next;
        k := k + 1;
      }
    }

    /** `insert_timer`: links `t` in behind every timer due no later. */
    method InsertTimer(t: TimerNode)
      requires Valid() && t !in nodes
      modifies `timers, `nodes, `contents, t`next, nodes`next
      ensures Valid()
      ensures State() == Publish(old(State()), old(t.Value()))
      ensures forall n :: n in nodes <==> n == t || n in old(nodes)
    {
      if timers == null || t.due < timers.due {
        LinkFirst(t);
        return;
      }
      var it;
      ghost var k;
      it, k := LastNotLater(t.due);
      InsertSplice(contents, t.Value(), k + 1);
      LinkAfter(it, t, k);
    }

    /** The part of a registration that runs before the lock is taken. */
    method NewNode(pluginId: nat, ms: nat, cb: nat, user: nat, repeating: bool, reading: Timespec)
      returns (t: TimerNode)
      requires Valid()
      modifies `nextId
      ensures Valid() && fresh(t) && t !in nodes
      ensures t.Value() == NewTimer(old(State()), pluginId, ms, cb, user, repeating, reading)
      ensures t.id == old(nextId) && nextId == old(nextId) + 1
      ensures t.pluginId == pluginId && t.cb == cb && t.user == user && t.repeating == repeating
      ensures t.interval == if repeating then ms else 0
      ensures DueAfter(t.due, reading, ms)
      ensures State() == TakeId(old(State()))
    {
      WrapsOnceAt(reading, ms);
      t := new TimerNode(nextId, Wrap64(Millis(reading) + ms), if repeating then ms else 0,
                         cb, user, pluginId, repeating);
      nextId := nextId + 1;
    }

    /** `scheduler_after_ms` (`repeating` false) and `scheduler_every_ms` (true), with no
        other thread running between its unlock and its return; `SchedulerRuns.ReturnId` is that
        gap.  `memory` is whether `malloc` succeeded. */
    method Register(pluginId: nat, ms: nat, cb: nat, user: nat, repeating: bool, memory: bool,
                    reading: Timespec) returns (id: int)
      requires Valid()
      modifies this, nodes
      ensures Valid()
      ensures cb == 0 || (repeating && ms == 0) || !memory ==>
                id == -1 && State() == old(State()) && nodes == old(nodes)
      ensures cb != 0 && (!repeating || ms != 0) && memory ==>
                && Accepts(ms, cb, repeating)
                && id == old(nextId)
                && State() == Publish(TakeId(old(State())),
                                      NewTimer(old(State()), pluginId, ms, cb, user, repeating, reading))
    {
      if cb == 0 || (repeating && ms == 0) || !memory {
        return SCHED_ERROR;
      }
      var t := NewNode(pluginId, ms, cb, user, repeating, reading);
      InsertTimer(t);
      return t.id;
    }

    /** `scheduler_cancel`: unlinks and frees the first timer the plugin owns under `id`. */
    method CancelTimer(pluginId: nat, id: int) returns (r: int)
      requires Valid()
      modifies this, nodes`next
      ensures Valid()
      ensures State() == Cancel(old(State()), pluginId, id)
      ensures r == if CancelHits(old(State()), pluginId, id) then 0 else -1
      ensures r == 0 <==> 0 < id && exists k :: 0 <= k < |old(contents)| && Owns(old(contents)[k], pluginId, id)
      ensures r == -1 ==> nodes == old(nodes)
    {
      if id <= 0 {
        return SCHED_ERROR;
      }
      var it := timers;
      var prev: TimerNode? := null;
      ghost var k := 0;
      while it != null
        invariant 0 <= k <= |nodes|
        invariant it == NodeAt(nodes, k)
        invariant prev == NodeAt(nodes, k - 1)
        invariant forall i :: 0 <= i < k ==> !Owns(contents[i], pluginId, id)
        decreases |nodes| - k
      {
        if it.id == id && it.pluginId == pluginId {
          assert it.Value() == contents[k];
          RemoveSplice(contents, pluginId, id, k);
          Unlink(prev, it, k);
          freed := freed + [id];
          return SCHED_OK;
        }
        prev := it;
        it := it.next;
        k := k + 1;
      }
      return SCHED_ERROR;
    }

    /** One pass of the thread's loop up to the point where it gives up the lock.  On `Fire` the
        head has left the chain and is handed to the caller. */
    method Evaluate(first: Timespec, second: Timespec) returns (v: Verdict, fired: TimerNode?)
      requires Valid() && Normalised(second)
      modifies `timers, `nodes, `contents
      ensures Valid()
      ensures v == Decide(old(State()), first, second)
      ensures State() == AfterDecide(old(State()), v)
      ensures v.Fire? ==> fired != null && fired.Value() == v.timer && fired !in nodes && fired in old(nodes)
    {
      fired := null;
      if !running {
        return Leave, null;
      }
      var now := Millis(first);
      if timers == null {
        return WaitForever, null;
      }
      var due := timers.due;
      assert timers.Value() == contents[0];
      if due <= now {
        fired := timers;
        timers := fired.next;
        v := Fire(Timer(fired.id, fired.due, fired.interval, fired.cb, fired.user,
                        fired.pluginId, fired.repeating));
        nodes, contents := nodes[1..], contents[1..];
      } else {
        var wait := due - now;
        var sec := second.sec + wait / MS_PER_SEC;
        var nsec := second.nsec + wait % MS_PER_SEC * NS_PER_MS;
        if nsec >= NS_PER_SEC {
          sec := sec + 1;
          nsec := nsec - NS_PER_SEC;
        }
        v := WaitUntil(due, Timespec(sec, nsec));
      }
    }

    /** The critical section after a callback: the node goes back on the chain or is freed. */
    method FinishCallback(t: TimerNode, reading: Timespec)
      requires Valid() && t !in nodes
      modifies this, t, nodes`next
      ensures Valid()
      ensures State() == Finish(old(State()), old(t.Value()), reading)
      ensures old(t.repeating && running) ==>
                t in nodes && t.interval == old(t.interval) && DueAfter(t.due, reading, t.interval)
      ensures !old(t.repeating && running) ==> nodes == old(nodes) && freed == old(freed) + [t.id]
    {
      if t.repeating && running {
        WrapsOnceAt(reading, t.interval);
        t.due := Wrap64(Millis(reading) + t.interval);
        t.next := null;
        InsertTimer(t);
      } else {
        freed := freed + [t.id];
      }
    }

    /** The cleanup loop of `scheduler_shutdown`, after the thread has been joined. */
    method FreeAll()
      requires Valid()
      modifies this
      ensures Valid() && nodes == []
      ensures State() == Cleanup(old(State()))
    {
      var it := timers;
      ghost var k, gone := 0, freed;
      while it != null
        invariant 0 <= k <= |nodes| && it == NodeAt(nodes, k)
        invariant gone == freed + Ids(contents)[..k]
        decreases |nodes| - k
      {
        var n := it.next;
        assert it.Value() == contents[k];
        assert Ids(contents)[..k + 1] == Ids(contents)[..k] + [it.id];
        gone := gone + [it.id];
        it := n;
        k := k + 1;
      }
      assert Ids(contents)[..k] == Ids(contents);
      timers, nodes, contents, freed := null, [], [], gone;
    }
  }
}

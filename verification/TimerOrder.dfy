/** The timer queue as a value: a sequence kept in firing order.

    `Insert` and `Remove` say what the pointer code in the scheduler computes; the lemmas say what
    the order means, without reference to how it is built. */
module TimerOrder {

  /** One timer.  `cb` and `user` are opaque handles; `cb == 0` is the null callback. */
  datatype Timer = Timer(
    id: int, due: nat, interval: nat, cb: nat, user: nat, pluginId: nat, repeating: bool)

  predicate Owns(t: Timer, pluginId: nat, id: int) {
    t.id == id && t.pluginId == pluginId
  }

  /** Puts `t` after every leading timer that is due no later. */
  function Insert(l: seq<Timer>, t: Timer): seq<Timer> {
    if l == [] || t.due < l[0].due then [t] + l
    else [l[0]] + Insert(l[1..], t)
  }

  /** Drops the first timer that `pluginId` owns under `id`, if there is one. */
  function Remove(l: seq<Timer>, pluginId: nat, id: int): seq<Timer> {
    if l == [] then l
    else if Owns(l[0], pluginId, id) then l[1..]
    else [l[0]] + Remove(l[1..], pluginId, id)
  }

  predicate Present(l: seq<Timer>, pluginId: nat, id: int) {
    exists i :: 0 <= i < |l| && Owns(l[i], pluginId, id)
  }

  function Ids(l: seq<Timer>): (r: seq<int>)
    ensures |r| == |l| && forall i :: 0 <= i < |l| ==> r[i] == l[i].id
  {
    seq(|l|, i requires 0 <= i < |l| => l[i].id)
  }

  ghost predicate Sorted(l: seq<Timer>) {
    forall i, j :: 0 <= i < j < |l| ==> l[i].due <= l[j].due
  }

  /** The timers due at `d`, in the order they stand. */
  function AtDue(l: seq<Timer>, d: nat): seq<Timer> {
    if l == [] then []
    else (if l[0].due == d then [l[0]] else []) + AtDue(l[1..], d)
  }

  /** The queue after inserting `xs` one by one into an empty queue. */
  function InsertAll(xs: seq<Timer>): seq<Timer> {
    if xs == [] then []
    else Insert(InsertAll(xs[..|xs| - 1]), xs[|xs| - 1])
  }

  /** `Insert` read as a splice: any split point whose left side is due no later and whose right
      side starts strictly later is the point of insertion. */
  lemma {:induction false} InsertSplice(l: seq<Timer>, t: Timer, k: nat)
    requires k <= |l|
    requires forall i :: 0 <= i < k ==> l[i].due <= t.due
    requires k < |l| ==> t.due < l[k].due
    ensures Insert(l, t) == l[..k] + [t] + l[k..]
  {
    if k == 0 {
      assert l[..0] + [t] + l[0..] == [t] + l;
    } else {
      var rest := l[1..];
      InsertSplice(rest, t, k - 1);
      assert l[..k] == [l[0]] + rest[..k - 1] && l[k..] == rest[k - 1..];
    }
  }

  /** `Remove` read as a splice at the first match. */
  lemma {:induction false} RemoveSplice(l: seq<Timer>, pluginId: nat, id: int, k: nat)
    requires k < |l| && Owns(l[k], pluginId, id)
    requires forall i :: 0 <= i < k ==> !Owns(l[i], pluginId, id)
    ensures Remove(l, pluginId, id) == l[..k] + l[k + 1..]
  {
    if k == 0 {
    } else {
      RemoveSplice(l[1..], pluginId, id, k - 1);
      assert l[..k] + l[k + 1..] == [l[0]] + (l[1..][..k - 1] + l[1..][k..]);
    }
  }

  /** The split point that `Insert` uses on a sorted queue. */
  lemma InsertPoint(l: seq<Timer>, t: Timer) returns (k: nat)
    ensures k <= |l|
    ensures forall i :: 0 <= i < k ==> l[i].due <= t.due
    ensures k < |l| ==> t.due < l[k].due
    ensures Insert(l, t) == l[..k] + [t] + l[k..]
  {
    k := 0;
    while k < |l| && l[k].due <= t.due
      invariant k <= |l| && forall i :: 0 <= i < k ==> l[i].due <= t.due
    {
      k := k + 1;
    }
    InsertSplice(l, t, k);
  }

  /** A first match exists wherever any match does. */
  lemma RemovePoint(l: seq<Timer>, pluginId: nat, id: int) returns (k: nat)
    requires Present(l, pluginId, id)
    ensures k < |l| && Owns(l[k], pluginId, id)
    ensures Remove(l, pluginId, id) == l[..k] + l[k + 1..]
  {
    k := 0;
    while !Owns(l[k], pluginId, id)
      invariant k < |l|
      invariant forall i :: 0 <= i < k ==> !Owns(l[i], pluginId, id)
      invariant exists i :: k <= i < |l| && Owns(l[i], pluginId, id)
      decreases |l| - k
    {
      k := k + 1;
    }
    RemoveSplice(l, pluginId, id, k);
  }

  /** With no match the queue is left alone. */
  lemma {:induction false} RemoveAbsent(l: seq<Timer>, pluginId: nat, id: int)
    requires !Present(l, pluginId, id)
    ensures Remove(l, pluginId, id) == l
  {
    if l != [] {
      assert !Owns(l[0], pluginId, id);
      forall i | 0 <= i < |l[1..]|
        ensures !Owns(l[1..][i], pluginId, id)
      {
        assert l[1..][i] == l[i + 1];
      }
      RemoveAbsent(l[1..], pluginId, id);
    }
  }

  lemma IdsConcat(a: seq<Timer>, b: seq<Timer>)
    ensures Ids(a + b) == Ids(a) + Ids(b)
  {
  }

  /** Splicing one element in adds one to its count. */
  lemma SpliceCounts<T>(a: seq<T>, x: T, b: seq<T>)
    ensures multiset(a + [x] + b) == multiset(a + b) + multiset{x}
  {
  }

  lemma IdsSplice(a: seq<Timer>, t: Timer, b: seq<Timer>)
    ensures multiset(Ids(a + [t] + b)) == multiset(Ids(a + b)) + multiset{t.id}
  {
    IdsConcat(a, [t]);
    IdsConcat(a + [t], b);
    IdsConcat(a, b);
    assert Ids([t]) == [t.id];
    SpliceCounts(Ids(a), t.id, Ids(b));
  }

  /** `Insert` adds exactly one timer. */
  lemma InsertCounts(l: seq<Timer>, t: Timer)
    ensures multiset(Insert(l, t)) == multiset(l) + multiset{t}
    ensures multiset(Ids(Insert(l, t))) == multiset(Ids(l)) + multiset{t.id}
  {
    var k := InsertPoint(l, t);
    assert l[..k] + l[k..] == l;
    SpliceCounts(l[..k], t, l[k..]);
    IdsSplice(l[..k], t, l[k..]);
  }

  lemma InsertMembers(l: seq<Timer>, t: Timer)
    ensures forall u :: u in Insert(l, t) <==> u == t || u in l
  {
  }

  /** `Remove` takes out exactly the timer it matched. */
  lemma RemoveCounts(l: seq<Timer>, pluginId: nat, id: int)
    requires Present(l, pluginId, id)
    ensures multiset(Ids(l)) == multiset(Ids(Remove(l, pluginId, id))) + multiset{id}
    ensures forall t :: t in Remove(l, pluginId, id) ==> t in l
  {
    var k := RemovePoint(l, pluginId, id);
    assert l[..k] + [l[k]] + l[k + 1..] == l;
    IdsSplice(l[..k], l[k], l[k + 1..]);
  }

  lemma InsertKeepsSorted(l: seq<Timer>, t: Timer)
    requires Sorted(l)
    ensures Sorted(Insert(l, t))
  {
    var k := InsertPoint(l, t);
  }

  lemma RemoveKeepsSorted(l: seq<Timer>, pluginId: nat, id: int)
    requires Sorted(l)
    ensures Sorted(Remove(l, pluginId, id))
  {
    if Present(l, pluginId, id) {
      var k := RemovePoint(l, pluginId, id);
    } else {
      RemoveAbsent(l, pluginId, id);
    }
  }

  /** `AtDue` from its head on. */
  lemma AtDueHead(x: Timer, l: seq<Timer>, d: nat)
    ensures AtDue([x] + l, d) == (if x.due == d then [x] else []) + AtDue(l, d)
  {
    assert ([x] + l)[1..] == l;
  }

  lemma {:induction false} AtDueConcat(a: seq<Timer>, b: seq<Timer>, d: nat)
    ensures AtDue(a + b, d) == AtDue(a, d) + AtDue(b, d)
  {
    if a == [] {
      assert a + b == b;
    } else {
      var here := if a[0].due == d then [a[0]] else [];
      calc {
        AtDue(a + b, d);
        { assert a + b == [a[0]] + (a[1..] + b); AtDueHead(a[0], a[1..] + b, d); }
        here + AtDue(a[1..] + b, d);
        { AtDueConcat(a[1..], b, d); }
        here + (AtDue(a[1..], d) + AtDue(b, d));
        here + AtDue(a[1..], d) + AtDue(b, d);
      }
    }
  }

  lemma {:induction false} AtDueNone(l: seq<Timer>, d: nat)
    requires forall i :: 0 <= i < |l| ==> l[i].due != d
    ensures AtDue(l, d) == []
  {
    if l != [] {
      AtDueNone(l[1..], d);
    }
  }

  /** A new timer goes behind the ones that share its due time and disturbs no other group. */
  lemma InsertAtDue(l: seq<Timer>, t: Timer, d: nat)
    requires Sorted(l)
    ensures AtDue(Insert(l, t), d) == AtDue(l, d) + AtDue([t], d)
  {
    var k := InsertPoint(l, t);
    assert l == l[..k] + l[k..];
    AtDueConcat(l[..k], l[k..], d);
    AtDueConcat(l[..k] + [t], l[k..], d);
    AtDueConcat(l[..k], [t], d);
    if d == t.due {
      AtDueNone(l[k..], d);
    } else {
      assert AtDue([t], d) == [];
    }
  }

  /** Main result.  The order timers leave the queue is a stable sort of the order they entered:
      a permutation, sorted by due time, first-in first-out among equal due times. */
  lemma {:induction false} FiringOrderIsStableSort(xs: seq<Timer>)
    ensures multiset(InsertAll(xs)) == multiset(xs)
    ensures Sorted(InsertAll(xs))
    ensures forall d :: AtDue(InsertAll(xs), d) == AtDue(xs, d)
  {
    if xs != [] {
      var front, last := xs[..|xs| - 1], xs[|xs| - 1];
      assert xs == front + [last];
      FiringOrderIsStableSort(front);
      InsertKeepsSorted(InsertAll(front), last);
      InsertCounts(InsertAll(front), last);
      forall d: nat
        ensures AtDue(InsertAll(xs), d) == AtDue(xs, d)
      {
        InsertAtDue(InsertAll(front), last, d);
        AtDueConcat(front, [last], d);
      }
    }
  }

  lemma {:induction false} AtDueFirst(l: seq<Timer>, d: nat)
    requires AtDue(l, d) != []
    ensures exists i :: 0 <= i < |l| && l[i].due == d
  {
    if l[0].due != d {
      AtDueFirst(l[1..], d);
      var i :| 0 <= i < |l[1..]| && l[1..][i].due == d;
      assert l[i + 1].due == d;
    }
  }

  lemma {:induction false} HeadLeads(ys: seq<Timer>, zs: seq<Timer>)
    requires Sorted(zs) && ys != []
    requires forall d :: AtDue(ys, d) == AtDue(zs, d)
    ensures zs != [] && zs[0].due <= ys[0].due
  {
    assert AtDue(ys, ys[0].due) != [];
    AtDueFirst(zs, ys[0].due);
  }

  /** The stable sort is unique, so the three facts above determine the firing order. */
  lemma {:induction false} StableSortUnique(ys: seq<Timer>, zs: seq<Timer>)
    requires Sorted(ys) && Sorted(zs)
    requires forall d :: AtDue(ys, d) == AtDue(zs, d)
    ensures ys == zs
  {
    if ys == [] {
      if zs != [] {
        HeadLeads(zs, ys);
      }
    } else {
      HeadLeads(ys, zs);
      HeadLeads(zs, ys);
      var e := ys[0].due;
      assert AtDue(ys, e)[0] == ys[0] && AtDue(zs, e)[0] == zs[0];
      forall d
        ensures AtDue(ys[1..], d) == AtDue(zs[1..], d)
      {
        if d == e {
          assert AtDue(ys[1..], d) == AtDue(ys, d)[1..];
          assert AtDue(zs[1..], d) == AtDue(zs, d)[1..];
        } else {
          assert AtDue(ys, d) == AtDue(ys[1..], d);
          assert AtDue(zs, d) == AtDue(zs[1..], d);
        }
      }
      StableSortUnique(ys[1..], zs[1..]);
    }
  }
}

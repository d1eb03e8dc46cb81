/** The gateway dispatcher: messages are gathered in a bounded arena and handed on in batches.

    `Arena` is the buffer updated in place.  The runs below interleave adding threads with flushing
    ones, which first look at the offset without the lock. */
module Dispatcher {
  import opened Common

  const MAX_TOTAL_SIZE := 65536
  const NEWLINE := '\n'

  type Message = string

  /** A message is taken if it and its newline leave at least one byte of the arena unused. */
  predicate HasRoom(offset: nat, msg: Message) {
    offset + |msg| + 1 < MAX_TOTAL_SIZE
  }

  /** What `gateway_d_msg_add` takes with `offset` bytes in the arena. */
  predicate Takes(offset: nat, msg: Message) {
    msg != [] && HasRoom(offset, msg)
  }

  /** The arena behind a taken message. */
  function Appended(contents: string, msg: Message): string {
    contents + msg + [NEWLINE]
  }

  /** Messages, each ended by a newline. */
  function Joined(msgs: seq<Message>): string {
    if msgs == [] then [] else Joined(msgs[..|msgs| - 1]) + msgs[|msgs| - 1] + [NEWLINE]
  }

  class Arena {
    var arena: array?<char>
    var offset: nat
    ghost var delivered: seq<string>

    ghost predicate Valid()
      reads this
    {
      && (arena != null ==> arena.Length == MAX_TOTAL_SIZE)
      && offset < MAX_TOTAL_SIZE
    }

    ghost function Contents(): string
      requires Valid() && arena != null
      reads this, arena
    {
      arena[..offset]
    }

    /** `gateway_dispatcher_init`, with the arena allocated. */
    constructor ()
      ensures Valid() && arena != null && fresh(arena) && offset == 0 && delivered == []
    {
      arena := new char[MAX_TOTAL_SIZE];
      offset, delivered := 0, [];
    }

    /** `gateway_d_msg_add`: appends the whole message and a newline, or drops the whole message. */
    method MsgAdd(msg: Option<Message>) returns (ghost taken: bool)
      requires Valid()
      modifies `offset, arena
      ensures Valid()
      ensures taken <==> arena != null && msg.Some? && Takes(old(offset), msg.value)
      ensures taken <==>
              && arena != null && msg.Some? && msg.value != ""
              && |old(Contents()) + msg.value + "\n"| < 65536
      ensures taken ==> Contents() == old(Contents()) + msg.value + "\n"
      ensures taken ==> Contents() == Appended(old(Contents()), msg.value)
      ensures !taken ==> offset == old(offset) && (arena != null ==> arena[..] == old(arena[..]))
    {
      if arena == null || msg.None? || msg.value == [] {
        return false;
      }
      var m := msg.value;
      if offset + |m| + 1 >= MAX_TOTAL_SIZE {
        return false;
      }
      forall k | 0 <= k < |m| {
        arena[offset + k] := m[k];
      }
      assert arena[offset..offset + |m|] == m;
      offset := offset + |m|;
      arena[offset] := NEWLINE;
      offset := offset + 1;
      return true;
    }

    /** The locked part of `gateway_d_flush`: everything gathered goes out in one piece. */
    method FlushLocked()
      requires Valid() && arena != null
      modifies `offset, `delivered
      ensures Valid() && Contents() == []
      ensures delivered == old(delivered) + [old(Contents())]
    {
      delivered := delivered + [arena[..offset]];
      offset := 0;
    }

    /** `gateway_d_flush` when nothing interferes between its check and its lock. */
    method Flush()
      requires Valid()
      modifies `offset, `delivered
      ensures Valid()
      ensures arena == null || old(offset) == 0 ==> delivered == old(delivered) && offset == old(offset)
      ensures arena != null && old(offset) != 0 ==>
                delivered == old(delivered) + [old(Contents())] && offset == 0
    {
      if arena == null || offset == 0 {
        return;
      }
      FlushLocked();
    }
  }

  // ----- runs -----

  /** A flushing thread: not flushing, or past the unlocked check on its way to the lock. */
  datatype Flusher = Idle | Committed

  /** `accepted` is the history of taken messages, `batches` of what the callback was given. */
  datatype State = State(arena: string, flushers: seq<Flusher>, accepted: seq<Message>, batches: seq<string>)

  datatype Action =
    | Add(msg: Message)
    | Check(i: nat)
    | Deliver(i: nat)

  predicate Enabled(s: State, a: Action) {
    match a
    case Add(_) => true
    case Check(i) => i < |s.flushers| && s.flushers[i].Idle?
    case Deliver(i) => i < |s.flushers| && s.flushers[i].Committed?
  }

  function Next(s: State, a: Action): State
    requires Enabled(s, a)
  {
    match a
    case Add(msg) =>
      if Takes(|s.arena|, msg)
      then s.(arena := Appended(s.arena, msg), accepted := s.accepted + [msg])
      else s
    case Check(i) => if s.arena == [] then s else s.(flushers := s.flushers[i := Committed])
    case Deliver(i) => s.(arena := [], batches := s.batches + [s.arena], flushers := s.flushers[i := Idle])
  }

  predicate Legal(s: State, run: seq<Action>)
    decreases |run|
  {
    run != [] ==> Enabled(s, run[0]) && Legal(Next(s, run[0]), run[1..])
  }

  function Exec(s: State, run: seq<Action>): State
    requires Legal(s, run)
    decreases |run|
  {
    if run == [] then s else Exec(Next(s, run[0]), run[1..])
  }

  function Init(threads: nat): State {
    State([], seq(threads, _ => Idle), [], [])
  }

  function Flat(batches: seq<string>): string {
    if batches == [] then [] else Flat(batches[..|batches| - 1]) + batches[|batches| - 1]
  }

  /** A batch is made of whole messages. */
  ghost predicate WholeMessages(batch: string) {
    exists msgs :: Joined(msgs) == batch
  }

  ghost predicate Inv(s: State) {
    && |s.arena| < MAX_TOTAL_SIZE
    && Flat(s.batches) + s.arena == Joined(s.accepted)
    && WholeMessages(s.arena)
    && forall b :: b in s.batches ==> WholeMessages(b)
  }

  lemma JoinedAppend(msgs: seq<Message>, m: Message)
    ensures Joined(msgs + [m]) == Joined(msgs) + m + [NEWLINE]
  {
  }

  lemma FlatAppend(batches: seq<string>, b: string)
    ensures Flat(batches + [b]) == Flat(batches) + b
  {
  }

  lemma InvStep(s: State, a: Action)
    requires Enabled(s, a) && Inv(s)
    ensures Inv(Next(s, a))
  {
    match a {
      case Add(msg) =>
        JoinedAppend(s.accepted, msg);
        assert Flat(s.batches) + (s.arena + msg + [NEWLINE]) == Flat(s.batches) + s.arena + msg + [NEWLINE];
        var msgs :| Joined(msgs) == s.arena;
        JoinedAppend(msgs, msg);
      case Check(_) =>
      case Deliver(_) =>
        FlatAppend(s.batches, s.arena);
        assert Joined([]) == [];
    }
  }

  lemma {:induction false} InvRun(s: State, run: seq<Action>)
    requires Inv(s) && Legal(s, run)
    ensures Inv(Exec(s, run))
    decreases |run|
  {
    if run != [] {
      InvStep(s, run[0]);
      InvRun(Next(s, run[0]), run[1..]);
    }
  }

  /** Conservation: whatever the interleaving, the callback's batches followed by the arena are the
      accepted messages in order, each with its newline; no batch splits a message; and the
      offset stays inside the arena. */
  lemma BytesConserved(threads: nat, run: seq<Action>)
    requires Legal(Init(threads), run)
    ensures var s := Exec(Init(threads), run);
            && Flat(s.batches) + s.arena == Joined(s.accepted)
            && (forall b :: b in s.batches ==> WholeMessages(b))
            && |s.arena| < 65536
  {
    assert Joined([]) == [];
    InvRun(Init(threads), run);
  }

  /** The messages of a run that find room, worked out from lengths alone: `offset` counts the bytes
      gathered since the last delivery. */
  function Survivors(run: seq<Action>, offset: nat): seq<Message>
    decreases |run|
  {
    if run == [] then []
    else
      match run[0]
      case Add(msg) =>
        if msg != "" && offset + |msg| + 1 < 65536 then [msg] + Survivors(run[1..], offset + |msg| + 1)
        else Survivors(run[1..], offset)
      case Check(_) => Survivors(run[1..], offset)
      case Deliver(_) => Survivors(run[1..], 0)
  }

  lemma {:induction false} AcceptsFrom(s: State, run: seq<Action>)
    requires Legal(s, run)
    ensures Exec(s, run).accepted == s.accepted + Survivors(run, |s.arena|)
    decreases |run|
  {
    if run != [] {
      AcceptsFrom(Next(s, run[0]), run[1..]);
    }
  }

  /** What reaches the callback or still waits in the arena is, byte for byte, the messages that were
      non-empty and found room when they were offered, in order: nothing else is ever dropped,
      cut short or repeated. */
  lemma KeepsExactlyWhatFits(threads: nat, run: seq<Action>)
    requires Legal(Init(threads), run)
    ensures var s := Exec(Init(threads), run);
            && s.accepted == Survivors(run, 0)
            && Flat(s.batches) + s.arena == Joined(Survivors(run, 0))
  {
    AcceptsFrom(Init(threads), run);
    BytesConserved(threads, run);
    assert [] + Survivors(run, 0) == Survivors(run, 0);
  }

  predicate NoEmptyBatch(batches: seq<string>) {
    forall b :: b in batches ==> b != []
  }

  lemma {:induction false} LoneFlusherRun(s: State, run: seq<Action>)
    requires |s.flushers| == 1 && (s.flushers[0].Committed? ==> s.arena != []) && NoEmptyBatch(s.batches)
    requires Legal(s, run)
    ensures NoEmptyBatch(Exec(s, run).batches)
    decreases |run|
  {
    if run != [] {
      LoneFlusherRun(Next(s, run[0]), run[1..]);
    }
  }

  /** The unlocked check is enough for the one dispatcher thread: it never delivers an empty batch.
      With a second thread flushing it is not. */
  lemma EmptyBatchesNeedTwoFlushers(threads: nat)
    ensures (exists run :: Legal(Init(threads), run) && !NoEmptyBatch(Exec(Init(threads), run).batches))
            <==> threads >= 2
  {
    if threads >= 2 {
      TwoFlushersRace(threads);
    } else {
      forall run | Legal(Init(threads), run)
        ensures NoEmptyBatch(Exec(Init(threads), run).batches)
      {
        if threads == 1 {
          LoneFlusherRun(Init(threads), run);
        } else {
          NoFlusherRun(Init(threads), run);
        }
      }
    }
  }

  lemma {:induction false} NoFlusherRun(s: State, run: seq<Action>)
    requires s.flushers == [] && s.batches == [] && Legal(s, run)
    ensures Exec(s, run).batches == []
    decreases |run|
  {
    if run != [] {
      NoFlusherRun(Next(s, run[0]), run[1..]);
    }
  }

  lemma TwoFlushersRace(threads: nat)
    requires threads >= 2
    ensures exists run :: Legal(Init(threads), run) && !NoEmptyBatch(Exec(Init(threads), run).batches)
  {
    var s := Init(threads);
    var last := [Deliver(1)];
    var flushes := [Deliver(0)] + last;
    var checks := [Check(0), Check(1)] + flushes;
    var run := [Add("a")] + checks;
    var s1 := Next(s, Add("a"));
    var s2 := Next(s1, Check(0));
    var s3 := Next(s2, Check(1));
    var s4 := Next(s3, Deliver(0));
    var s5 := Next(s4, Deliver(1));
    assert last[1..] == [] && Exec(s5, []) == s5;
    assert Legal(s4, last) && Exec(s4, last) == s5;
    assert flushes[1..] == last;
    assert Legal(s3, flushes) && Exec(s3, flushes) == s5;
    assert checks[1..][1..] == flushes;
    assert Legal(s2, checks[1..]) && Exec(s2, checks[1..]) == s5;
    assert Legal(s1, checks) && Exec(s1, checks) == s5;
    assert run[1..] == checks;
    assert Legal(s, run) && Exec(s, run) == s5;
    assert s5.batches[1] == [] && s5.batches[1] in s5.batches;
    assert !NoEmptyBatch(Exec(Init(threads), run).batches);
  }
}

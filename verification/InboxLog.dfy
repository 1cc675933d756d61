/** The reliable queue against a simple reference: an append-only log of what was queued, with the fate of each entry. */
module InboxLog {
  import opened Prelude
  import opened ControlMessages
  import opened InboxModel
  import opened InboxOrder

  datatype Fate = Waiting | Sent | Dropped

  /** One entry: queued by the caller's own message (`direct`) or by the flush of a delta slot. */
  datatype Rec = Rec(entry: Queued, direct: bool, fate: Fate)

  function WithFate(log: seq<Rec>, fate: Fate): seq<Queued> {
    if log == [] then []
    else (if log[0].fate == fate then [log[0].entry] else []) + WithFate(log[1..], fate)
  }

  function DirectMessages(log: seq<Rec>): seq<Msg> {
    if log == [] then []
    else (if log[0].direct then [log[0].entry.msg] else []) + DirectMessages(log[1..])
  }

  /** Nothing was sent past an entry that still waits. */
  ghost predicate Fifo(log: seq<Rec>) {
    forall i, j | 0 <= i < j < |log| :: log[i].fate.Waiting? ==> !log[j].fate.Sent?
  }

  // ---------------------------------------------------------------- the reference's operations

  function Queue(entries: seq<Queued>, direct: bool): seq<Rec> {
    if entries == [] then [] else [Rec(entries[0], direct, Waiting)] + Queue(entries[1..], direct)
  }

  function SendFirst(log: seq<Rec>): seq<Rec> {
    if log == [] then []
    else if log[0].fate.Waiting? then [log[0].(fate := Sent)] + log[1..]
    else [log[0]] + SendFirst(log[1..])
  }

  function SendMany(log: seq<Rec>, n: nat): seq<Rec>
    decreases n
  {
    if n == 0 then log else SendMany(SendFirst(log), n - 1)
  }

  function DropSwept(log: seq<Rec>, sweep: Sweep): seq<Rec> {
    if log == [] then []
    else
      var hit := log[0].fate.Waiting? && Sweeps(sweep, log[0].entry.msg);
      [if hit then log[0].(fate := Dropped) else log[0]] + DropSwept(log[1..], sweep)
  }

  function LogStep(log: seq<Rec>, ib: Inbox, op: Op): seq<Rec> {
    match op
    case Put(m) =>
      if m.Shutdown? || !Accepts(ib, m) then log
      else if m.DisplaySwitch? then DropSwept(log, StaleDeltas)
      else if !ReliableKind(m) then log
      else
        log + (if m.TouchPanStart? then [] else Queue(Flushed(ib.state), false))
        + [Rec(Queued(ib.state.next, m), true, Waiting)]
    case Take(limit) => SendMany(log, |QueueOuts(Drain(ib.state, limit).1)|)
    case Permit(mask, enable) => if mask == {} || enable then log else DropSwept(log, Protected(mask))
    case Phone(ready) => if ready then log else DropSwept(log, Protected({KEYBOARD}))
  }

  function LogOf(ops: seq<Op>): seq<Rec> {
    if ops == [] then []
    else LogStep(LogOf(ops[..|ops| - 1]), Run(ops[..|ops| - 1]), ops[|ops| - 1])
  }

  /** The reliable messages the inbox accepted during a run, in acceptance order. */
  function AcceptedReliable(ops: seq<Op>): seq<Msg> {
    if ops == [] then []
    else
      var before, op := ops[..|ops| - 1], ops[|ops| - 1];
      AcceptedReliable(before)
      + (if op.Put? && ReliableKind(op.msg) && Accepts(Run(before), op.msg) then [op.msg] else [])
  }

  // ---------------------------------------------------------------- lemmas about the reference

  lemma {:induction false} ConcatFates(a: seq<Rec>, b: seq<Rec>, fate: Fate)
    ensures WithFate(a + b, fate) == WithFate(a, fate) + WithFate(b, fate)
  {
    if a == [] {
      assert a + b == b;
    } else {
      assert (a + b)[1..] == a[1..] + b;
      ConcatFates(a[1..], b, fate);
      var head := if a[0].fate == fate then [a[0].entry] else [];
      assert head + (WithFate(a[1..], fate) + WithFate(b, fate)) == head + WithFate(a[1..], fate) + WithFate(b, fate);
    }
  }

  lemma {:induction false} ConcatDirect(a: seq<Rec>, b: seq<Rec>)
    ensures DirectMessages(a + b) == DirectMessages(a) + DirectMessages(b)
  {
    if a == [] {
      assert a + b == b;
    } else {
      assert (a + b)[1..] == a[1..] + b;
      ConcatDirect(a[1..], b);
      var head := if a[0].direct then [a[0].entry.msg] else [];
      assert head + (DirectMessages(a[1..]) + DirectMessages(b)) == head + DirectMessages(a[1..]) + DirectMessages(b);
    }
  }

  lemma {:induction false} QueueFates(entries: seq<Queued>, direct: bool)
    ensures WithFate(Queue(entries, direct), Waiting) == entries
    ensures WithFate(Queue(entries, direct), Sent) == []
    ensures !direct ==> DirectMessages(Queue(entries, direct)) == []
    ensures forall r :: r in Queue(entries, direct) ==> r.fate.Waiting? && r.direct == direct && r.entry in entries
  {
    if entries != [] {
      QueueFates(entries[1..], direct);
    }
  }

  lemma {:induction false} NoneSent(log: seq<Rec>)
    requires forall i | 0 <= i < |log| :: !log[i].fate.Sent?
    ensures WithFate(log, Sent) == []
  {
    if log != [] {
      NoneSent(log[1..]);
    }
  }

  lemma {:induction false} SendFirstFates(log: seq<Rec>)
    requires Fifo(log) && WithFate(log, Waiting) != []
    ensures var t := SendFirst(log);
            && Fifo(t) && |t| == |log| && DirectMessages(t) == DirectMessages(log)
            && WithFate(log, Waiting) == [WithFate(log, Waiting)[0]] + WithFate(t, Waiting)
            && WithFate(t, Sent) == WithFate(log, Sent) + [WithFate(log, Waiting)[0]]
  {
    var t := SendFirst(log);
    if log[0].fate.Waiting? {
      assert t[1..] == log[1..];
      NoneSent(log[1..]);
    } else {
      SendFirstFates(log[1..]);
      assert t[1..] == SendFirst(log[1..]);
      FifoCons(log[0], t[1..]);
    }
  }

  lemma {:induction false} FifoCons(head: Rec, tail: seq<Rec>)
    requires Fifo(tail) && !head.fate.Waiting?
    ensures Fifo([head] + tail)
  {
  }

  lemma {:induction false} DropSweptFates(log: seq<Rec>, sweep: Sweep)
    requires Fifo(log)
    ensures var t := DropSwept(log, sweep);
            && Fifo(t) && DirectMessages(t) == DirectMessages(log)
            && WithFate(t, Waiting) == Without(WithFate(log, Waiting), sweep)
            && WithFate(t, Sent) == WithFate(log, Sent)
  {
    DropSweptExtends(log, sweep);
    if log != [] {
      DropSweptFates(log[1..], sweep);
      var w := WithFate(log[1..], Waiting);
      var t := DropSwept(log, sweep);
      assert t[1..] == DropSwept(log[1..], sweep);
      assert WithFate(t, Waiting) == (if t[0].fate.Waiting? then [t[0].entry] else []) + Without(w, sweep);
      if log[0].fate.Waiting? {
        assert WithFate(log, Waiting) == [log[0].entry] + w;
        assert ([log[0].entry] + w)[1..] == w;
        assert Without([log[0].entry] + w, sweep)
            == (if Sweeps(sweep, log[0].entry.msg) then [] else [log[0].entry]) + Without(w, sweep);
      } else {
        assert [] + w == w && [] + Without(w, sweep) == Without(w, sweep);
      }
    }
  }

  /** An entry's fate changes at most once, and never back. */
  ghost predicate Extends(before: seq<Rec>, after: seq<Rec>) {
    && |before| <= |after|
    && forall i | 0 <= i < |before| ::
         after[i].entry == before[i].entry && after[i].direct == before[i].direct &&
         (after[i].fate == before[i].fate || before[i].fate.Waiting?)
  }

  lemma {:induction false} DropSweptExtends(log: seq<Rec>, sweep: Sweep)
    ensures |DropSwept(log, sweep)| == |log| && Extends(log, DropSwept(log, sweep))
    ensures forall i | 0 <= i < |log| ::
              DropSwept(log, sweep)[i] == log[i] ||
              (log[i].fate.Waiting? && Sweeps(sweep, log[i].entry.msg) &&
               DropSwept(log, sweep)[i] == log[i].(fate := Dropped))
  {
    if log != [] {
      DropSweptExtends(log[1..], sweep);
    }
  }

  // ---------------------------------------------------------------- the refinement

  /** The queue holds the waiting entries, and the queue's emissions are the sent ones, both in log order. */
  ghost predicate Mirrors(log: seq<Rec>, queue: seq<Queued>, emitted: seq<Queued>) {
    Fifo(log) && WithFate(log, Waiting) == queue && WithFate(log, Sent) == emitted
  }

  lemma {:induction false} SendFirstMirrors(log: seq<Rec>, queue: seq<Queued>, emitted: seq<Queued>)
    requires Mirrors(log, queue, emitted) && queue != []
    ensures Mirrors(SendFirst(log), queue[1..], emitted + [queue[0]])
    ensures DirectMessages(SendFirst(log)) == DirectMessages(log)
  {
    SendFirstFates(log);
    assert ([queue[0]] + WithFate(SendFirst(log), Waiting))[1..] == WithFate(SendFirst(log), Waiting);
  }

  lemma {:induction false} JoinQueueOuts(a: seq<Out>, b: seq<Out>)
    ensures QueueOuts(a + b) == QueueOuts(a) + QueueOuts(b)
  {
    if a == [] {
      assert a + b == b;
    } else {
      assert (a + b)[1..] == a[1..] + b;
      JoinQueueOuts(a[1..], b);
      var head := if a[0].from == Reliable then [a[0].entry] else [];
      assert head + (QueueOuts(a[1..]) + QueueOuts(b)) == head + QueueOuts(a[1..]) + QueueOuts(b);
    }
  }

  // ---------------------------------------------------------------- what one accepted message, and one batch, do

  /** What an accepted reliable message adds to the log. */
  function Added(s: State, m: Msg): seq<Rec> {
    (if m.TouchPanStart? then [] else Queue(Flushed(s), false)) + [Rec(Queued(s.next, m), true, Waiting)]
  }

  lemma {:induction false} AddedFates(s: State, m: Msg)
    requires ReliableKind(m) && Admits(s, m)
    ensures s.reliable + WithFate(Added(s, m), Waiting) == Store(s, m).reliable
    ensures DirectMessages(Added(s, m)) == [m]
    ensures forall i | 0 <= i < |Added(s, m)| :: Added(s, m)[i].fate.Waiting?
  {
    var own := [Rec(Queued(s.next, m), true, Waiting)];
    QueueFates(Flushed(s), false);
    assert own[1..] == [];
    assert WithFate(own, Waiting) == [Queued(s.next, m)] + WithFate([], Waiting);
    assert DirectMessages(own) == [m] + DirectMessages([]);
    if m.TouchPanStart? {
      assert [] + own == own;
    } else {
      ConcatFates(Queue(Flushed(s), false), own, Waiting);
      ConcatDirect(Queue(Flushed(s), false), own);
      FlushingStore(s, m);
      assert s.reliable + (Flushed(s) + [Queued(s.next, m)]) == s.reliable + Flushed(s) + [Queued(s.next, m)];
    }
  }

  /** Entries that wait, at the end of a log, are the end of its queue and were not emitted. */
  lemma {:induction false} AppendMirrors(log: seq<Rec>, added: seq<Rec>, queue: seq<Queued>, emitted: seq<Queued>)
    requires Mirrors(log, queue, emitted)
    requires forall i | 0 <= i < |added| :: added[i].fate.Waiting?
    ensures Mirrors(log + added, queue + WithFate(added, Waiting), emitted)
    ensures DirectMessages(log + added) == DirectMessages(log) + DirectMessages(added)
  {
    ConcatFates(log, added, Waiting);
    ConcatFates(log, added, Sent);
    ConcatDirect(log, added);
    NoneSent(added);
  }

  /** A batch sends as many of the first waiting entries as it took from the queue. */
  lemma {:induction false} DrainMirrors(log: seq<Rec>, s: State, n: nat, emitted: seq<Queued>)
    requires Mirrors(log, s.reliable, emitted)
    ensures var (after, outs) := Drain(s, n);
            var t := SendMany(log, |QueueOuts(outs)|);
            Mirrors(t, after.reliable, emitted + QueueOuts(outs)) && DirectMessages(t) == DirectMessages(log)
    decreases n
  {
    var outs := Drain(s, n).1;
    if n == 0 || NextPending(s).None? {
      assert emitted + [] == emitted;
    } else {
      var (s1, out) := PopOne(s);
      PopCounts(s);
      var rest := Drain(s1, n - 1).1;
      assert ([out] + rest)[1..] == rest;
      assert outs == [out] + rest;
      if out.from == Reliable {
        SendFirstMirrors(log, s.reliable, emitted);
        DrainMirrors(SendFirst(log), s1, n - 1, emitted + [out.entry]);
        Associate(emitted, [out.entry], QueueOuts(rest));
      } else {
        DrainMirrors(log, s1, n - 1, emitted);
        assert QueueOuts(outs) == QueueOuts(rest);
      }
    }
  }
}

/** The log of a run: every accepted reliable message exactly once, with a fate that is final. */
module InboxFates {
  import opened Prelude
  import opened ControlMessages
  import opened InboxModel
  import opened InboxOrder
  import opened InboxLog

  lemma {:induction false} StepMirrors(log: seq<Rec>, ib: Inbox, op: Op, emitted: seq<Queued>)
    requires Mirrors(log, ib.state.reliable, emitted)
    ensures Mirrors(LogStep(log, ib, op), Step(ib, op).state.reliable, emitted + QueueOuts(Emits(ib, op)))
    ensures DirectMessages(LogStep(log, ib, op))
         == DirectMessages(log)
            + (if op.Put? && ReliableKind(op.msg) && Accepts(ib, op.msg) then [op.msg] else [])
  {
    assert emitted + [] == emitted && DirectMessages(log) + [] == DirectMessages(log);
    match op
    case Put(m) =>
      if Passes(ib, m) && Admits(ib.state, m) {
        if ReliableKind(m) {
          AddedFates(ib.state, m);
          AppendMirrors(log, Added(ib.state, m), ib.state.reliable, emitted);
          assert LogStep(log, ib, op) == log + Added(ib.state, m);
        } else if m.DisplaySwitch? {
          DropSweptFates(log, StaleDeltas);
        } else {
          SlotKeepsQueue(ib.state, m);
        }
      }
    case Take(limit) => DrainMirrors(log, ib.state, limit, emitted);
    case Permit(mask, enable) => DropSweptFates(log, Protected(mask));
    case Phone(ready) => DropSweptFates(log, Protected({KEYBOARD}));
  }

  lemma {:induction false} SlotKeepsQueue(s: State, m: Msg)
    requires !ReliableKind(m) && !m.DisplaySwitch? && !m.Shutdown?
    ensures Store(s, m).reliable == s.reliable
  {
  }

  /**
   * Over every run there is a log whose direct entries are the accepted reliable messages in acceptance order,
   * whose waiting entries are the queue, and whose sent entries are exactly what the queue emitted, in that order.
   */
  lemma {:induction false} ReliableExactlyOnce(ops: seq<Op>)
    ensures Mirrors(LogOf(ops), Run(ops).state.reliable, QueueOuts(Emitted(ops)))
    ensures DirectMessages(LogOf(ops)) == AcceptedReliable(ops)
  {
    if ops != [] {
      var before, op := ops[..|ops| - 1], ops[|ops| - 1];
      ReliableExactlyOnce(before);
      StepMirrors(LogOf(before), Run(before), op, QueueOuts(Emitted(before)));
      JoinQueueOuts(Emitted(before), Emits(Run(before), op));
    }
  }

  // ---------------------------------------------------------------- one fate each, and who drops

  lemma {:induction false} SendFirstExtends(log: seq<Rec>)
    ensures Extends(log, SendFirst(log))
  {
    if log != [] && !log[0].fate.Waiting? {
      SendFirstExtends(log[1..]);
    }
  }

  lemma {:induction false} SendManyExtends(log: seq<Rec>, n: nat)
    ensures Extends(log, SendMany(log, n))
    decreases n
  {
    if n > 0 {
      SendFirstExtends(log);
      SendManyExtends(SendFirst(log), n - 1);
    }
  }

  lemma {:induction false} FatesAreFinal(ops: seq<Op>, op: Op)
    ensures Extends(LogOf(ops), LogOf(ops + [op]))
  {
    var log := LogOf(ops);
    assert (ops + [op])[..|ops + [op]| - 1] == ops;
    assert LogOf(ops + [op]) == LogStep(log, Run(ops), op);
    if op.Take? {
      SendManyExtends(log, |QueueOuts(Drain(Run(ops).state, op.limit).1)|);
    } else {
      DropSweptExtends(log, StaleDeltas);
      DropSweptExtends(log, Protected(if op.Permit? then op.mask else {KEYBOARD}));
    }
  }

  /** What an operation takes back from the queue: stale deltas, or what the one permission it denies protects. */
  predicate TakesBack(op: Op, m: Msg) {
    match op
    case Put(p) =>
      p.DisplaySwitch? && ((m.TouchScale? && m.scale > 0) || m.TouchPanUpdate? || m.MouseWheel2D?)
    case Permit(mask, enable) => !enable && RequiredPermission(m).Some? && mask == {RequiredPermission(m).value}
    case Phone(ready) => !ready && RequiredPermission(m) == Some(KEYBOARD)
    case Take(_) => false
  }

  lemma {:induction false} DropSweptExactly(log: seq<Rec>, sweep: Sweep, i: nat)
    requires i < |log| && log[i].fate.Waiting?
    ensures |DropSwept(log, sweep)| == |log|
    ensures DropSwept(log, sweep)[i].fate.Dropped? <==> Sweeps(sweep, log[i].entry.msg)
  {
    DropSweptExtends(log, sweep);
    if i > 0 {
      DropSweptExactly(log[1..], sweep, i - 1);
    }
  }

  lemma {:induction false} SendManyDropsNone(log: seq<Rec>, n: nat, i: nat)
    requires i < |log| && !log[i].fate.Dropped?
    ensures i < |SendMany(log, n)| && !SendMany(log, n)[i].fate.Dropped?
    decreases n
  {
    if n > 0 {
      SendFirstDropsNone(log, i);
      SendManyDropsNone(SendFirst(log), n - 1, i);
    }
  }

  lemma {:induction false} SendFirstDropsNone(log: seq<Rec>, i: nat)
    requires i < |log| && !log[i].fate.Dropped?
    ensures i < |SendFirst(log)| && !SendFirst(log)[i].fate.Dropped?
  {
    if !log[0].fate.Waiting? && i > 0 {
      SendFirstDropsNone(log[1..], i - 1);
    }
  }

  /** Exactly which waiting entries an operation drops. */
  lemma {:induction false} DropsExactly(ops: seq<Op>, op: Op, i: nat)
    requires i < |LogOf(ops)| && LogOf(ops)[i].fate.Waiting?
    ensures i < |LogOf(ops + [op])|
    ensures LogOf(ops + [op])[i].fate.Dropped? <==> TakesBack(op, LogOf(ops)[i].entry.msg)
  {
    var log := LogOf(ops);
    assert (ops + [op])[..|ops + [op]| - 1] == ops;
    assert LogOf(ops + [op]) == LogStep(log, Run(ops), op);
    match op
    case Put(m) =>
      if m.DisplaySwitch? {
        DropSweptExactly(log, StaleDeltas, i);
      }
    case Take(limit) => SendManyDropsNone(log, |QueueOuts(Drain(Run(ops).state, limit).1)|, i);
    case Permit(mask, enable) => DropSweptExactly(log, Protected(mask), i);
    case Phone(ready) => DropSweptExactly(log, Protected({KEYBOARD}), i);
  }

  ghost predicate NoRevocation(ops: seq<Op>) {
    forall i | 0 <= i < |ops| :: (ops[i].Permit? ==> ops[i].enable) && (ops[i].Phone? ==> ops[i].ready)
  }

  ghost predicate DropsOnlyFlushed(log: seq<Rec>) {
    forall i | 0 <= i < |log| ::
      (log[i].direct ==> !log[i].fate.Dropped? && !StaleUpdate(log[i].entry.msg))
  }

  lemma {:induction false} DropStaleSpares(log: seq<Rec>)
    requires DropsOnlyFlushed(log)
    ensures DropsOnlyFlushed(DropSwept(log, StaleDeltas))
  {
    DropSweptExtends(log, StaleDeltas);
  }

  lemma {:induction false} SendManySpares(log: seq<Rec>, n: nat)
    requires DropsOnlyFlushed(log)
    ensures DropsOnlyFlushed(SendMany(log, n))
    decreases n
  {
    if n > 0 {
      SendFirstSpares(log);
      SendManySpares(SendFirst(log), n - 1);
    }
  }

  lemma {:induction false} SendFirstSpares(log: seq<Rec>)
    requires DropsOnlyFlushed(log)
    ensures DropsOnlyFlushed(SendFirst(log))
  {
    if log != [] && !log[0].fate.Waiting? {
      SendFirstSpares(log[1..]);
    }
  }

  lemma {:induction false} AppendSpares(log: seq<Rec>, flushed: seq<Queued>, own: Rec)
    requires DropsOnlyFlushed(log) && own.direct && own.fate.Waiting? && !StaleUpdate(own.entry.msg)
    ensures DropsOnlyFlushed(log + Queue(flushed, false) + [own])
  {
    QueueFates(flushed, false);
  }

  lemma {:induction false} PutSpares(log: seq<Rec>, ib: Inbox, m: Msg)
    requires DropsOnlyFlushed(log)
    ensures DropsOnlyFlushed(LogStep(log, ib, Put(m)))
  {
    if ReliableKind(m) {
      AppendSpares(log, if m.TouchPanStart? then [] else Flushed(ib.state), Rec(Queued(ib.state.next, m), true, Waiting));
    } else if m.DisplaySwitch? {
      DropStaleSpares(log);
    }
  }

  /** Without a revocation or a phone close, no accepted reliable message is ever discarded. */
  lemma {:induction false} NothingLostUnrevoked(ops: seq<Op>)
    requires NoRevocation(ops)
    ensures DropsOnlyFlushed(LogOf(ops))
  {
    if ops != [] {
      var before, op := ops[..|ops| - 1], ops[|ops| - 1];
      NothingLostUnrevoked(before);
      var log := LogOf(before);
      match op
      case Put(m) => PutSpares(log, Run(before), m);
      case Take(limit) => SendManySpares(log, |QueueOuts(Drain(Run(before).state, limit).1)|);
      case _ =>
    }
  }
}

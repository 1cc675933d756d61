/** Emission order: what keeps the sequence numbers of every emitted message nondecreasing, and what breaks it. */
module InboxOrder {
  import opened Prelude
  import opened ControlMessages
  import opened InboxModel

  ghost predicate Sorted(q: seq<Queued>) {
    forall i, j | 0 <= i < j < |q| :: q[i].seqno <= q[j].seqno
  }

  ghost predicate Nondecreasing(outs: seq<Out>) {
    forall i, j | 0 <= i < j < |outs| :: outs[i].entry.seqno <= outs[j].entry.seqno
  }

  ghost predicate Within(n: Option<nat>, lo: nat, hi: nat) {
    n.Some? ==> lo <= n.value <= hi
  }

  ghost predicate AllWithin(q: seq<Queued>, lo: nat, hi: nat) {
    forall i | 0 <= i < |q| :: lo <= q[i].seqno <= hi
  }

  /** Everything pending lies between `lo` and the next number, and the touch slot is newer than the queue. */
  ghost predicate Ordered(s: State, lo: nat) {
    && lo <= s.next
    && Sorted(s.reliable)
    && AllWithin(s.reliable, lo, s.next)
    && Within(MouseHead(s), lo, s.next) && Within(TouchHead(s), lo, s.next)
    && Within(WheelHead(s), lo, s.next) && Within(DisplayHead(s), lo, s.next)
    && (s.touch.Some? ==> AllWithin(s.reliable, lo, s.touch.value.seqno))
  }

  /** A queued message is newer than the pending wheel delta. Only a pan start can bring this about. */
  ghost predicate Overtaken(s: State) {
    s.wheel.Some? && exists i :: 0 <= i < |s.reliable| && s.wheel.value.seqno < s.reliable[i].seqno
  }

  /** Storing this message first flushes the delta slots into the queue. */
  predicate Flushes(s: State, m: Msg) {
    ReliableKind(m) && Admits(s, m) && !m.TouchPanStart?
  }

  // ---------------------------------------------------------------- one operation

  lemma {:induction false} WithoutSorted(q: seq<Queued>, sweep: Sweep, lo: nat, hi: nat)
    requires Sorted(q) && AllWithin(q, lo, hi)
    ensures Sorted(Without(q, sweep)) && AllWithin(Without(q, sweep), lo, hi)
  {
    if q != [] {
      WithoutSorted(q[1..], sweep, q[0].seqno, hi);
    }
  }

  lemma {:induction false} DiscardProtectedOrdered(s: State, mask: Mask, lo: nat)
    requires Ordered(s, lo)
    ensures Ordered(DiscardProtected(s, mask), lo)
  {
    WithoutSorted(s.reliable, Protected(mask), lo, s.next);
    if s.touch.Some? {
      WithoutSorted(s.reliable, Protected(mask), lo, s.touch.value.seqno);
    }
  }

  /** A flush appends the slots in order, behind a queue that none of them was overtaken by. */
  lemma {:induction false} FlushOrdered(s: State, lo: nat)
    requires Ordered(s, lo)
    ensures !Overtaken(s) ==> Sorted(Flush(s).reliable)
    ensures AllWithin(Flush(s).reliable, lo, s.next)
  {
    FlushedSorted(s);
    SortedConcat(s.reliable, Flushed(s));
  }

  lemma {:induction false} SortedConcat(a: seq<Queued>, b: seq<Queued>)
    requires Sorted(a) && Sorted(b)
    ensures (forall i, j | 0 <= i < |a| && 0 <= j < |b| :: a[i].seqno <= b[j].seqno) ==> Sorted(a + b)
  {
  }

  lemma {:induction false} FlushedSorted(s: State)
    ensures Sorted(Flushed(s))
    ensures forall k | 0 <= k < |Flushed(s)| ::
              (s.touch.Some? && Flushed(s)[k].seqno == s.touch.value.seqno) ||
              (s.wheel.Some? && Flushed(s)[k].seqno == s.wheel.value.seqno)
  {
  }

  lemma {:induction false} OvertakenFlush(s: State)
    requires Overtaken(s)
    ensures !Sorted(Flush(s).reliable)
  {
    var q, f := s.reliable, Flushed(s);
    var i :| 0 <= i < |q| && s.wheel.value.seqno < q[i].seqno;
    var j := if s.touch.Some? && s.touch.value.seqno <= s.wheel.value.seqno then |q| + |f| - 1 else |q|;
    assert (q + f)[i] == q[i] && (q + f)[j].seqno == s.wheel.value.seqno;
  }

  lemma {:induction false} PushOrdered(s: State, q: nat, m: Msg, lo: nat)
    requires Ordered(s, lo) && q == s.next && s.touch.None?
    ensures Ordered(Push(s, q, m), lo)
  {
  }

  lemma {:induction false} StoreOrdered(s: State, m: Msg, lo: nat)
    requires Ordered(s, lo)
    requires !(Flushes(s, m) && Overtaken(s))
    requires !m.Shutdown?
    ensures Ordered(Store(s, m), lo)
  {
    if m.DisplaySwitch? {
      SwitchOrdered(s, m, lo);
    } else if Flushes(s, m) {
      FlushOrdered(s, lo);
      FlushingStore(s, m);
    } else if m.TouchPanStart? {
      PanStartOrdered(s, m, lo);
    } else {
      SlotStoreOrdered(s, m, lo);
    }
  }

  lemma {:induction false} SwitchOrdered(s: State, m: Msg, lo: nat)
    requires Ordered(s, lo) && m.DisplaySwitch?
    ensures Ordered(Store(s, m), lo)
  {
    WithoutSorted(s.reliable, StaleDeltas, lo, s.next);
    assert Store(s, m).reliable == Without(s.reliable, StaleDeltas);
  }

  lemma {:induction false} PanStartOrdered(s: State, m: Msg, lo: nat)
    requires Ordered(s, lo) && m.TouchPanStart?
    ensures Ordered(Store(s, m), lo)
  {
    assert Store(s, m).reliable == s.reliable + [Queued(s.next, m)];
  }

  lemma {:induction false} SlotStoreOrdered(s: State, m: Msg, lo: nat)
    requires Ordered(s, lo)
    requires !Flushes(s, m) && !m.TouchPanStart? && !m.DisplaySwitch? && !m.Shutdown?
    ensures Ordered(Store(s, m), lo)
  {
    var t := Store(s, m);
    assert t.reliable == s.reliable && t.displaySwitch == s.displaySwitch && t.next == NextSequence(s.next);
    if m.TouchScale? || m.TouchPanUpdate? {
      assert t.wheel == s.wheel && t.mouseMove == s.mouseMove;
    } else {
      assert t.touch == s.touch;
    }
  }

  /** What a flushing message does to the queue and the slots. */
  lemma {:induction false} FlushingStore(s: State, m: Msg)
    requires Flushes(s, m)
    ensures var t := Store(s, m);
            t.reliable == Flush(s).reliable + [Queued(s.next, m)] && t.next == NextSequence(s.next) &&
            t.touch.None? && t.wheel.None? && t.mouseMove == s.mouseMove && t.displaySwitch == s.displaySwitch
  {
  }

  /** Exactly when a flushing message leaves the queue sorted. */
  lemma {:induction false} FlushOrderExact(s: State, m: Msg, lo: nat)
    requires Ordered(s, lo) && Flushes(s, m)
    ensures Sorted(Store(s, m).reliable) <==> !Overtaken(s)
  {
    FlushOrdered(s, lo);
    FlushingStore(s, m);
    if Overtaken(s) {
      OvertakenFlush(s);
    }
    var flushed, stored := Flush(s).reliable, Store(s, m).reliable;
    if !Sorted(flushed) {
      var i, j :| 0 <= i < j < |flushed| && flushed[i].seqno > flushed[j].seqno;
      assert stored[i] == flushed[i] && stored[j] == flushed[j];
    }
  }

  ghost predicate NotOlder(head: Option<nat>, n: nat) {
    head.Some? ==> n <= head.value
  }

  /** The slot chosen is a pending one with the smallest sequence number. */
  lemma {:induction false} NextIsOldest(s: State)
    requires NextPending(s).Some?
    ensures var (n, slot) := NextPending(s).value;
            && NotOlder(QueueHead(s), n) && NotOlder(MouseHead(s), n) && NotOlder(TouchHead(s), n)
            && NotOlder(WheelHead(s), n) && NotOlder(DisplayHead(s), n)
            && Some(n) == match slot
                          case Reliable => QueueHead(s)
                          case Mouse => MouseHead(s)
                          case Touch => TouchHead(s)
                          case Wheel => WheelHead(s)
                          case Display => DisplayHead(s)
  {
  }

  /** The message popped is the oldest one pending, and what stays is no older. */
  lemma {:induction false} PopOrdered(s: State, lo: nat)
    requires Ordered(s, lo) && NextPending(s).Some?
    ensures var (s1, out) := PopOne(s); lo <= out.entry.seqno && Ordered(s1, out.entry.seqno)
  {
    NextIsOldest(s);
    var (n, slot) := NextPending(s).value;
    assert AllWithin(s.reliable, n, s.next);
    if slot == Reliable {
      assert PopOne(s) == (PopQueue(s), Out(Reliable, s.reliable[0]));
      PopQueueOrdered(s, lo);
    } else {
      PopSlotOrdered(s, n, slot);
    }
  }

  lemma {:induction false} PopSlotOrdered(s: State, n: nat, slot: Slot)
    requires NextPending(s) == Some((n, slot)) && slot != Reliable && Ordered(s, n)
    ensures PopOne(s).1.entry.seqno == n && Ordered(PopOne(s).0, n)
  {
    var t := PopOne(s).0;
    assert t.reliable == s.reliable && t.next == s.next;
    assert t.touch.Some? ==> t.touch.value.seqno == s.touch.value.seqno;
  }

  lemma {:induction false} PopQueueOrdered(s: State, lo: nat)
    requires Ordered(s, lo) && s.reliable != []
    requires NotOlder(MouseHead(s), s.reliable[0].seqno) && NotOlder(WheelHead(s), s.reliable[0].seqno)
    requires NotOlder(DisplayHead(s), s.reliable[0].seqno) && NotOlder(TouchHead(s), s.reliable[0].seqno)
    ensures Ordered(PopQueue(s), s.reliable[0].seqno)
  {
  }

  function LastSeqno(outs: seq<Out>, otherwise: nat): nat {
    if outs == [] then otherwise else outs[|outs| - 1].entry.seqno
  }

  lemma {:induction false} DrainOrdered(s: State, n: nat, lo: nat)
    requires Ordered(s, lo)
    ensures var (after, outs) := Drain(s, n);
            Nondecreasing(outs) && Ordered(after, LastSeqno(outs, lo)) &&
            forall i | 0 <= i < |outs| :: lo <= outs[i].entry.seqno
    decreases n
  {
    if n > 0 && NextPending(s).Some? {
      PopOrdered(s, lo);
      var (s1, out) := PopOne(s);
      DrainOrdered(s1, n - 1, out.entry.seqno);
    }
  }

  // ---------------------------------------------------------------- runs

  ghost predicate OvertakesAt(ib: Inbox, op: Op) {
    op.Put? && Passes(ib, op.msg) && Flushes(ib.state, op.msg) && Overtaken(ib.state)
  }

  /** No operation of the run flushes a wheel delta behind a newer message. */
  ghost predicate NeverOvertakes(ops: seq<Op>) {
    ops != [] ==>
      NeverOvertakes(ops[..|ops| - 1]) && !OvertakesAt(Run(ops[..|ops| - 1]), ops[|ops| - 1])
  }

  lemma {:induction false} StepOrdered(ib: Inbox, op: Op, lo: nat)
    requires Ordered(ib.state, lo) && !OvertakesAt(ib, op)
    ensures Nondecreasing(Emits(ib, op))
    ensures forall i | 0 <= i < |Emits(ib, op)| :: lo <= Emits(ib, op)[i].entry.seqno
    ensures Ordered(Step(ib, op).state, LastSeqno(Emits(ib, op), lo))
  {
    match op
    case Put(m) =>
      if Passes(ib, m) {
        StoreOrdered(ib.state, m, lo);
      }
    case Take(limit) =>
      DrainOrdered(ib.state, limit, lo);
    case Permit(mask, enable) =>
      DiscardProtectedOrdered(ib.state, mask, lo);
    case Phone(ready) =>
      DiscardProtectedOrdered(ib.state, {KEYBOARD}, lo);
  }

  /** Over every run that never overtakes, all batches together come out in sequence order. */
  lemma {:induction false} RunOrdered(ops: seq<Op>)
    requires NeverOvertakes(ops)
    ensures Nondecreasing(Emitted(ops))
    ensures Ordered(Run(ops).state, LastSeqno(Emitted(ops), 0))
  {
    if ops != [] {
      var before := ops[..|ops| - 1];
      RunOrdered(before);
      var lo := LastSeqno(Emitted(before), 0);
      StepOrdered(Run(before), ops[|ops| - 1], lo);
      JoinOrdered(Emitted(before), Emits(Run(before), ops[|ops| - 1]));
    }
  }

  lemma {:induction false} JoinOrdered(a: seq<Out>, b: seq<Out>)
    requires Nondecreasing(a) && Nondecreasing(b)
    requires forall i | 0 <= i < |b| :: LastSeqno(a, 0) <= b[i].entry.seqno
    ensures Nondecreasing(a + b)
    ensures LastSeqno(a + b, 0) == LastSeqno(b, LastSeqno(a, 0))
  {
    var c := a + b;
    forall i, j | 0 <= i < j < |c| ensures c[i].entry.seqno <= c[j].entry.seqno {
      if i < |a| <= j {
        assert c[j] == b[j - |a|] && a[i].entry.seqno <= a[|a| - 1].entry.seqno;
      } else if |a| <= i {
        assert c[i] == b[i - |a|] && c[j] == b[j - |a|];
      }
    }
    if b != [] {
      assert c[|c| - 1] == b[|b| - 1];
    } else {
      assert c == a;
    }
  }

  /** The simpler condition: no pan start is accepted while a wheel delta is pending. */
  ghost predicate WheelIdleAtPanStarts(ops: seq<Op>) {
    ops != [] ==>
      var ib := Run(ops[..|ops| - 1]);
      var op := ops[|ops| - 1];
      && WheelIdleAtPanStarts(ops[..|ops| - 1])
      && !(op.Put? && op.msg.TouchPanStart? && Passes(ib, op.msg) && ib.state.wheel.Some?)
  }

  lemma {:induction false} WithoutMembers(q: seq<Queued>, sweep: Sweep)
    ensures forall e :: e in Without(q, sweep) <==> e in q && !Sweeps(sweep, e.msg)
  {
    if q != [] {
      WithoutMembers(q[1..], sweep);
    }
  }

  ghost predicate WheelNewest(s: State) {
    s.wheel.Some? ==> forall e :: e in s.reliable ==> e.seqno <= s.wheel.value.seqno
  }

  lemma {:induction false} DrainWheelNewest(s: State, n: nat)
    requires WheelNewest(s)
    ensures WheelNewest(Drain(s, n).0)
    decreases n
  {
    if n > 0 && NextPending(s).Some? {
      DrainWheelNewest(PopOne(s).0, n - 1);
    }
  }

  lemma {:induction false} StoreWheelNewest(s: State, m: Msg, lo: nat)
    requires WheelNewest(s) && Ordered(s, lo)
    requires m.TouchPanStart? ==> s.wheel.None?
    requires !m.Shutdown?
    ensures WheelNewest(Store(s, m))
  {
    WithoutMembers(s.reliable, StaleDeltas);
    if Flushes(s, m) {
      FlushingStore(s, m);
    }
  }

  lemma {:induction false} StepWheelNewest(ib: Inbox, op: Op, lo: nat)
    requires WheelNewest(ib.state) && Ordered(ib.state, lo)
    requires !(op.Put? && op.msg.TouchPanStart? && Passes(ib, op.msg) && ib.state.wheel.Some?)
    ensures WheelNewest(Step(ib, op).state)
  {
    match op
    case Put(m) => if Passes(ib, m) { StoreWheelNewest(ib.state, m, lo); }
    case Take(limit) => DrainWheelNewest(ib.state, limit);
    case Permit(mask, enable) => WithoutMembers(ib.state.reliable, Protected(mask));
    case Phone(ready) => WithoutMembers(ib.state.reliable, Protected({KEYBOARD}));
  }

  lemma {:induction false} WheelIdleNeverOvertakes(ops: seq<Op>)
    requires WheelIdleAtPanStarts(ops)
    ensures NeverOvertakes(ops)
    ensures WheelNewest(Run(ops).state)
  {
    if ops != [] {
      var before, op := ops[..|ops| - 1], ops[|ops| - 1];
      WheelIdleNeverOvertakes(before);
      RunOrdered(before);
      StepWheelNewest(Run(before), op, LastSeqno(Emitted(before), 0));
    }
  }

  // ---------------------------------------------------------------- the exact boundary

  function QueueOuts(outs: seq<Out>): seq<Queued> {
    if outs == [] then []
    else (if outs[0].from == Reliable then [outs[0].entry] else []) + QueueOuts(outs[1..])
  }

  /** How many messages draining everything takes. */
  function PendingCount(s: State): nat {
    |s.reliable| + (if s.mouseMove.Some? then 1 else 0) + (if s.touch.Some? then |TouchEntries(s.touch.value)| else 0)
    + (if s.wheel.Some? then 1 else 0) + (if s.displaySwitch.Some? then 1 else 0)
  }

  lemma {:induction false} PopCounts(s: State)
    requires NextPending(s).Some?
    ensures PendingCount(PopOne(s).0) == PendingCount(s) - 1
    ensures var (s1, out) := PopOne(s);
            if out.from == Reliable then s.reliable == [out.entry] + s1.reliable else s.reliable == s1.reliable
  {
    PopSlotCounts(s, NextPending(s).value.1);
  }

  lemma {:induction false} PopSlotCounts(s: State, slot: Slot)
    requires NextPending(s).Some? && NextPending(s).value.1 == slot
    ensures PendingCount(PopOne(s).0) == PendingCount(s) - 1
  {
    if slot == Touch {
      assert PopOne(s) == PopTouch(s);
      PopTouchCounts(s);
    } else if slot == Reliable {
      assert PopOne(s).0 == PopQueue(s);
    }
  }

  lemma {:induction false} PopTouchCounts(s: State)
    requires s.touch.Some?
    ensures PendingCount(PopTouch(s).0) == PendingCount(s) - 1
  {
  }

  /** Draining everything emits the whole queue, front to back. */
  lemma {:induction false} DrainEmitsQueue(s: State, n: nat)
    requires n >= PendingCount(s)
    ensures QueueOuts(Drain(s, n).1) == s.reliable
    decreases n
  {
    if n > 0 && NextPending(s).Some? {
      var (s1, out) := PopOne(s);
      PopCounts(s);
      DrainEmitsQueue(s1, n - 1);
      assert ([out] + Drain(s1, n - 1).1)[1..] == Drain(s1, n - 1).1;
    }
  }

  lemma {:induction false} QueueOutsSorted(outs: seq<Out>)
    requires Nondecreasing(outs)
    ensures Sorted(QueueOuts(outs))
    ensures outs != [] ==> forall i | 0 <= i < |QueueOuts(outs)| :: outs[0].entry.seqno <= QueueOuts(outs)[i].seqno
  {
    if outs != [] {
      QueueOutsSorted(outs[1..]);
    }
  }

  /** A queue that is out of order comes out out of order. */
  lemma {:induction false} UnsortedQueueShows(s: State)
    requires !Sorted(s.reliable)
    ensures !Nondecreasing(Drain(s, PendingCount(s)).1)
  {
    DrainEmitsQueue(s, PendingCount(s));
    if Nondecreasing(Drain(s, PendingCount(s)).1) {
      QueueOutsSorted(Drain(s, PendingCount(s)).1);
    }
  }

  lemma {:induction false} SuffixOrder(a: seq<Out>, b: seq<Out>)
    requires Nondecreasing(a + b)
    ensures Nondecreasing(b)
  {
    forall i, j | 0 <= i < j < |b| ensures b[i].entry.seqno <= b[j].entry.seqno {
      assert (a + b)[|a| + i] == b[i] && (a + b)[|a| + j] == b[j];
    }
  }

  lemma {:induction false} PutThenTake(ops: seq<Op>, m: Msg, n: nat)
    requires Passes(Run(ops), m)
    ensures Emitted(ops + [Put(m)] + [Take(n)]) == Emitted(ops) + Drain(Store(Run(ops).state, m), n).1
  {
    RunSnoc(ops, Put(m));
    RunSnoc(ops + [Put(m)], Take(n));
  }

  /** After an ordered run, a flushing message keeps every later batch in order exactly when no wheel is overtaken. */
  lemma {:induction false} OvertakingIsExact(ops: seq<Op>, m: Msg)
    requires NeverOvertakes(ops)
    requires Passes(Run(ops), m) && Flushes(Run(ops).state, m)
    ensures (forall n: nat :: Nondecreasing(Emitted(ops + [Put(m)] + [Take(n)]))) <==> !Overtaken(Run(ops).state)
  {
    var s := Run(ops).state;
    RunOrdered(ops);
    if !Overtaken(s) {
      forall n: nat ensures Nondecreasing(Emitted(ops + [Put(m)] + [Take(n)])) {
        var one, two := ops + [Put(m)], ops + [Put(m)] + [Take(n)];
        assert one[..|one| - 1] == ops && two[..|two| - 1] == one;
        RunOrdered(two);
      }
    } else {
      var n := PendingCount(Store(s, m));
      FlushOrderExact(s, m, LastSeqno(Emitted(ops), 0));
      UnsortedQueueShows(Store(s, m));
      PutThenTake(ops, m, n);
      if Nondecreasing(Emitted(ops + [Put(m)] + [Take(n)])) {
        SuffixOrder(Emitted(ops), Drain(Store(s, m), n).1);
      }
    }
  }

  /** The run the ordering claim must exclude: wheel, pan start, key come out as pan start, wheel, key. */
  lemma {:induction false} WheelPanStartKey(x: I32, y: I32, scancode: nat)
    requires x != 0 || y != 0
    ensures var ops := [Put(MouseWheel2D(x, y)), Put(TouchPanStart(0, 0)), Put(KeyEvent(scancode, true)), Take(8)];
            Emitted(ops) == [Out(Reliable, Queued(2, TouchPanStart(0, 0))),
                             Out(Reliable, Queued(1, MouseWheel2D(x, y))),
                             Out(Reliable, Queued(3, KeyEvent(scancode, true)))]
  {
    ThreePuts(MouseWheel2D(x, y), TouchPanStart(0, 0), KeyEvent(scancode, true), 8);
    WheelPanStartKeyState(x, y, scancode);
    var ib := Enqueue(Enqueue(Enqueue(FRESH, MouseWheel2D(x, y)), TouchPanStart(0, 0)), KeyEvent(scancode, true));
    DrainQueueOnly(ib.state, 8);
  }

  /** A run of three puts and a batch, from the fresh inbox. */
  lemma {:induction false} ThreePuts(a: Msg, b: Msg, c: Msg, limit: nat)
    ensures Emitted([Put(a), Put(b), Put(c), Take(limit)])
         == Drain(Enqueue(Enqueue(Enqueue(FRESH, a), b), c).state, limit).1
  {
    TwoPuts(a, b);
    var two := [Put(a)] + [Put(b)];
    PutOne(two, c);
    RunSnoc(two + [Put(c)], Take(limit));
    assert two + [Put(c)] + [Take(limit)] == [Put(a), Put(b), Put(c), Take(limit)];
  }

  lemma {:induction false} TwoPuts(a: Msg, b: Msg)
    ensures Run([Put(a)] + [Put(b)]) == Enqueue(Enqueue(FRESH, a), b) && Emitted([Put(a)] + [Put(b)]) == []
  {
    PutOne([], a);
    assert [] + [Put(a)] == [Put(a)];
    PutOne([Put(a)], b);
  }

  lemma {:induction false} PutOne(ops: seq<Op>, m: Msg)
    ensures Run(ops + [Put(m)]) == Enqueue(Run(ops), m) && Emitted(ops + [Put(m)]) == Emitted(ops)
  {
    RunSnoc(ops, Put(m));
  }

  lemma {:induction false} WheelPanStartKeyState(x: I32, y: I32, scancode: nat)
    requires x != 0 || y != 0
    ensures var ib := Enqueue(Enqueue(Enqueue(FRESH, MouseWheel2D(x, y)), TouchPanStart(0, 0)), KeyEvent(scancode, true));
            && ib.state.reliable == [Queued(2, TouchPanStart(0, 0)), Queued(1, MouseWheel2D(x, y)),
                                     Queued(3, KeyEvent(scancode, true))]
            && ib.state.mouseMove.None? && ib.state.touch.None? && ib.state.wheel.None? && ib.state.displaySwitch.None?
  {
    var one := Enqueue(FRESH, MouseWheel2D(x, y));
    assert one.state == FRESH_STATE.(next := 2, wheel := Some(WheelSlot(1, x, y)));
    var two := Enqueue(one, TouchPanStart(0, 0));
    assert two.state.reliable == [Queued(2, TouchPanStart(0, 0))] && two.state.wheel == one.state.wheel;
  }

  /** With every slot empty, a batch is a prefix of the queue. */
  lemma {:induction false} DrainQueueOnly(s: State, n: nat)
    requires s.mouseMove.None? && s.touch.None? && s.wheel.None? && s.displaySwitch.None?
    requires n >= |s.reliable|
    ensures Drain(s, n).1 == seq(|s.reliable|, i requires 0 <= i < |s.reliable| => Out(Reliable, s.reliable[i]))
    decreases n
  {
    if s.reliable != [] {
      DrainQueueOnly(PopOne(s).0, n - 1);
    }
  }
}

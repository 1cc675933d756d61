/** Conservation of pan and wheel deltas through merging, flushing, discarding and emission. */
module InboxLedger {
  import opened Prelude
  import opened ControlMessages
  import opened InboxModel
  import opened InboxOrder

  datatype Axis = PanX | PanY | WheelX | WheelY

  /** How far a message moves along an axis. */
  function Amount(m: Msg, axis: Axis): int {
    match axis
    case PanX => if m.TouchPanUpdate? then m.x else 0
    case PanY => if m.TouchPanUpdate? then m.y else 0
    case WheelX => if m.MouseWheel2D? then m.x else 0
    case WheelY => if m.MouseWheel2D? then m.y else 0
  }

  function Sum(q: seq<Queued>, axis: Axis): int {
    if q == [] then 0 else Amount(q[0].msg, axis) + Sum(q[1..], axis)
  }

  function SumOuts(outs: seq<Out>, axis: Axis): int {
    if outs == [] then 0 else Amount(outs[0].entry.msg, axis) + SumOuts(outs[1..], axis)
  }

  /** The pan held in a touch slot. */
  function PanOf(t: TouchSlot): (int, int) {
    match t
    case Scaled(_, _, None) => (0, 0)
    case Scaled(_, _, Some(v)) => (v.0, v.1)
    case Panned(_, v) => (v.0, v.1)
  }

  function TouchSum(s: State, axis: Axis): int {
    if s.touch.None? then 0
    else if axis == PanX then PanOf(s.touch.value).0
    else if axis == PanY then PanOf(s.touch.value).1
    else 0
  }

  function WheelSum(s: State, axis: Axis): int {
    if s.wheel.None? then 0
    else if axis == WheelX then s.wheel.value.x
    else if axis == WheelY then s.wheel.value.y
    else 0
  }

  /** Everything the inbox still holds along an axis: in the queue and in the slots. */
  function Held(s: State, axis: Axis): int {
    Sum(s.reliable, axis) + TouchSum(s, axis) + WheelSum(s, axis)
  }

  /** The one-value slots hold their own kinds of message. */
  ghost predicate Typed(s: State) {
    && (s.mouseMove.Some? ==> s.mouseMove.value.msg.MouseMove?)
    && (s.displaySwitch.Some? ==> s.displaySwitch.value.msg.DisplaySwitch?)
  }

  // ---------------------------------------------------------------- sums

  lemma {:induction false} SumConcat(a: seq<Queued>, b: seq<Queued>, axis: Axis)
    ensures Sum(a + b, axis) == Sum(a, axis) + Sum(b, axis)
  {
    if a == [] {
      assert a + b == b;
    } else {
      assert (a + b)[1..] == a[1..] + b;
      SumConcat(a[1..], b, axis);
    }
  }

  lemma {:induction false} SumOutsConcat(a: seq<Out>, b: seq<Out>, axis: Axis)
    ensures SumOuts(a + b, axis) == SumOuts(a, axis) + SumOuts(b, axis)
  {
    if a == [] {
      assert a + b == b;
    } else {
      assert (a + b)[1..] == a[1..] + b;
      SumOutsConcat(a[1..], b, axis);
    }
  }

  /** A sweep either takes every delta of the queue, or none. */
  lemma {:induction false} SumWithout(q: seq<Queued>, sweep: Sweep, axis: Axis)
    ensures Sum(Without(q, sweep), axis)
         == if sweep == StaleDeltas || sweep == Protected({KEYBOARD}) then 0 else Sum(q, axis)
  {
    if q != [] {
      SumWithout(q[1..], sweep, axis);
      var rest := Without(q[1..], sweep);
      if !Sweeps(sweep, q[0].msg) {
        assert ([q[0]] + rest)[1..] == rest;
      } else {
        assert [] + rest == rest;
        KeyboardOnly(q[0].msg, sweep, axis);
      }
    }
  }

  lemma {:induction false} KeyboardOnly(m: Msg, sweep: Sweep, axis: Axis)
    requires Sweeps(sweep, m)
    ensures Amount(m, axis) == 0 || sweep == StaleDeltas || sweep == Protected({KEYBOARD})
  {
  }

  lemma {:induction false} SumOne(e: Queued, axis: Axis)
    ensures Sum([e], axis) == Amount(e.msg, axis)
  {
    assert [e][1..] == [];
  }

  /** The entries a touch slot turns into carry the slot's pan. */
  lemma {:induction false} TouchEntriesSum(s: State, axis: Axis)
    requires s.touch.Some?
    ensures Sum(TouchEntries(s.touch.value), axis) == TouchSum(s, axis)
  {
    var es := TouchEntries(s.touch.value);
    SumOne(es[0], axis);
    if |es| == 2 {
      SumOne(es[1], axis);
      SumConcat([es[0]], [es[1]], axis);
      assert [es[0]] + [es[1]] == es;
    }
  }

  lemma {:induction false} FlushKeepsHeld(s: State, axis: Axis)
    ensures Sum(Flush(s).reliable, axis) == Held(s, axis)
  {
    SumConcat(s.reliable, Flushed(s), axis);
    if s.touch.Some? {
      TouchEntriesSum(s, axis);
    }
    if s.wheel.Some? {
      SumOne(WheelEntries(s.wheel.value)[0], axis);
    }
    if s.touch.Some? && s.wheel.Some? {
      SumConcat(TouchEntries(s.touch.value), WheelEntries(s.wheel.value), axis);
      SumConcat(WheelEntries(s.wheel.value), TouchEntries(s.touch.value), axis);
    }
  }

  // ---------------------------------------------------------------- one operation

  /** Merging this message into its slot stays within i32 on both components. */
  ghost predicate Fits(s: State, m: Msg) {
    && (m.TouchPanUpdate? && s.touch.Some? ==>
          match s.touch.value
          case Scaled(_, _, None) => true
          case Scaled(_, _, Some(v)) => FitsI32(v.0 + m.x) && FitsI32(v.1 + m.y)
          case Panned(_, v) => FitsI32(v.0 + m.x) && FitsI32(v.1 + m.y))
    && (m.MouseWheel2D? && s.wheel.Some? ==>
          FitsI32(s.wheel.value.x + m.x) && FitsI32(s.wheel.value.y + m.y))
  }

  function Slotted(s: State, axis: Axis): int {
    TouchSum(s, axis) + WheelSum(s, axis)
  }

  /** What an operation throws away along an axis. */
  function Discards(ib: Inbox, op: Op, axis: Axis): int {
    match op
    case Put(m) =>
      if !Accepts(ib, m) then 0
      else if m.DisplaySwitch? then Held(ib.state, axis)
      else if m.TouchPanStart? then TouchSum(ib.state, axis)
      else 0
    case Take(_) => 0
    case Permit(mask, enable) => if !enable && mask == {KEYBOARD} then Held(ib.state, axis) else 0
    case Phone(ready) => if ready then 0 else Held(ib.state, axis)
  }

  function Gains(ib: Inbox, op: Op, axis: Axis): int {
    if op.Put? && Accepts(ib, op.msg) then Amount(op.msg, axis) else 0
  }

  lemma {:induction false} StoreConserves(s: State, m: Msg, axis: Axis)
    requires Admits(s, m) && !m.Shutdown?
    requires Fits(s, m)
    ensures Held(Store(s, m), axis)
         == Held(s, axis) + Amount(m, axis)
            - (if m.DisplaySwitch? then Held(s, axis) else if m.TouchPanStart? then TouchSum(s, axis) else 0)
  {
    if Flushes(s, m) {
      FlushingStore(s, m);
      FlushKeepsHeld(s, axis);
      SumConcat(Flush(s).reliable, [Queued(s.next, m)], axis);
      SumOne(Queued(s.next, m), axis);
    } else if m.TouchPanStart? {
      SumConcat(s.reliable, [Queued(s.next, m)], axis);
      SumOne(Queued(s.next, m), axis);
    } else if m.DisplaySwitch? {
      SumWithout(s.reliable, StaleDeltas, axis);
    } else {
      SlotConserves(s, m, axis);
    }
  }

  lemma {:induction false} SlotConserves(s: State, m: Msg, axis: Axis)
    requires Admits(s, m) && !ReliableKind(m) && !m.DisplaySwitch? && !m.Shutdown?
    requires Fits(s, m)
    ensures Held(Store(s, m), axis) == Held(s, axis) + Amount(m, axis)
  {
    assert Store(s, m).reliable == s.reliable;
    if m.MouseWheel2D? {
      assert Store(s, m).touch == s.touch;
    } else {
      assert Store(s, m).wheel == s.wheel;
    }
  }

  lemma {:induction false} PopTouchConserves(s: State, axis: Axis)
    requires s.touch.Some? && Typed(s)
    ensures var (s1, out) := PopTouch(s);
            Held(s, axis) == Amount(out.entry.msg, axis) + Held(s1, axis) && Typed(s1)
  {
  }

  lemma {:induction false} PopQueueConserves(s: State, axis: Axis)
    requires s.reliable != [] && Typed(s)
    ensures Held(s, axis) == Amount(s.reliable[0].msg, axis) + Held(PopQueue(s), axis) && Typed(PopQueue(s))
  {
  }

  lemma {:induction false} PopConserves(s: State, axis: Axis)
    requires NextPending(s).Some? && Typed(s)
    ensures var (s1, out) := PopOne(s);
            Held(s, axis) == Amount(out.entry.msg, axis) + Held(s1, axis) && Typed(s1)
  {
    var slot := NextPending(s).value.1;
    if slot == Reliable {
      PopQueueConserves(s, axis);
    } else if slot == Touch {
      PopTouchConserves(s, axis);
    } else {
      PopSlotConserves(s, slot, axis);
    }
  }

  lemma {:induction false} PopSlotConserves(s: State, slot: Slot, axis: Axis)
    requires NextPending(s).Some? && NextPending(s).value.1 == slot && Typed(s)
    requires slot != Reliable && slot != Touch
    ensures var (s1, out) := PopOne(s);
            Held(s, axis) == Amount(out.entry.msg, axis) + Held(s1, axis) && Typed(s1)
  {
    var (s1, out) := PopOne(s);
    assert s1.reliable == s.reliable && s1.touch == s.touch;
    assert slot != Wheel ==> Amount(out.entry.msg, axis) == 0;
  }

  lemma {:induction false} DrainConserves(s: State, n: nat, axis: Axis)
    requires Typed(s)
    ensures var (after, outs) := Drain(s, n);
            Held(s, axis) == SumOuts(outs, axis) + Held(after, axis) && Typed(after)
    decreases n
  {
    if n > 0 && NextPending(s).Some? {
      PopConserves(s, axis);
      DrainConserves(PopOne(s).0, n - 1, axis);
    }
  }

  lemma {:induction false} DiscardProtectedHeld(s: State, mask: Mask, axis: Axis)
    ensures Held(DiscardProtected(s, mask), axis) == if mask == {KEYBOARD} then 0 else Held(s, axis)
  {
    SumWithout(s.reliable, Protected(mask), axis);
  }

  lemma {:induction false} PutConserves(ib: Inbox, m: Msg, axis: Axis)
    requires Typed(ib.state)
    requires Accepts(ib, m) ==> Fits(ib.state, m)
    ensures Typed(Enqueue(ib, m).state)
    ensures Held(ib.state, axis) + Gains(ib, Put(m), axis)
         == Held(Enqueue(ib, m).state, axis) + Discards(ib, Put(m), axis)
  {
    if Passes(ib, m) {
      if Admits(ib.state, m) {
        StoreConserves(ib.state, m, axis);
      }
      StoreTyped(ib.state, m);
    }
  }

  lemma {:induction false} StoreTyped(s: State, m: Msg)
    requires Typed(s)
    ensures Typed(Store(s, m))
  {
  }

  lemma {:induction false} StepConserves(ib: Inbox, op: Op, axis: Axis)
    requires Typed(ib.state)
    requires op.Put? && Accepts(ib, op.msg) ==> Fits(ib.state, op.msg)
    ensures Typed(Step(ib, op).state)
    ensures Held(ib.state, axis) + Gains(ib, op, axis)
         == Held(Step(ib, op).state, axis) + SumOuts(Emits(ib, op), axis) + Discards(ib, op, axis)
  {
    match op
    case Put(m) =>
      PutConserves(ib, m, axis);
    case Take(limit) =>
      DrainConserves(ib.state, limit, axis);
      TailKeepsHeld(Drain(ib.state, limit).0, axis);
    case Permit(mask, enable) =>
      DiscardProtectedHeld(ib.state, mask, axis);
    case Phone(ready) =>
      DiscardProtectedHeld(ib.state, {KEYBOARD}, axis);
  }

  lemma {:induction false} TailKeepsHeld(s: State, axis: Axis)
    ensures forall r: nat :: Held(TakeTail(s, r).0, axis) == Held(s, axis)
    ensures Typed(s) ==> forall r: nat :: Typed(TakeTail(s, r).0)
  {
  }

  // ---------------------------------------------------------------- runs

  function Accepted(ops: seq<Op>, axis: Axis): int {
    if ops == [] then 0
    else Accepted(ops[..|ops| - 1], axis) + Gains(Run(ops[..|ops| - 1]), ops[|ops| - 1], axis)
  }

  function Discarded(ops: seq<Op>, axis: Axis): int {
    if ops == [] then 0
    else Discarded(ops[..|ops| - 1], axis) + Discards(Run(ops[..|ops| - 1]), ops[|ops| - 1], axis)
  }

  ghost predicate NeverSaturates(ops: seq<Op>) {
    ops != [] ==>
      var ib, op := Run(ops[..|ops| - 1]), ops[|ops| - 1];
      NeverSaturates(ops[..|ops| - 1]) && (op.Put? && Accepts(ib, op.msg) ==> Fits(ib.state, op.msg))
  }

  /** Accepted = emitted + held + discarded, on every axis of every run that stays in i32 range. */
  lemma {:induction false} DeltasConserved(ops: seq<Op>, axis: Axis)
    requires NeverSaturates(ops)
    ensures Typed(Run(ops).state)
    ensures Accepted(ops, axis)
         == SumOuts(Emitted(ops), axis) + Held(Run(ops).state, axis) + Discarded(ops, axis)
  {
    if ops != [] {
      var before, op := ops[..|ops| - 1], ops[|ops| - 1];
      DeltasConserved(before, axis);
      StepConserves(Run(before), op, axis);
      SumOutsConcat(Emitted(before), Emits(Run(before), op), axis);
    }
  }

  /** Exactly when accepting a delta keeps the books: nothing saturates. */
  lemma {:induction false} ConservationIsExact(s: State, m: Msg)
    requires m.TouchPanUpdate? || m.MouseWheel2D?
    requires Admits(s, m)
    ensures (forall axis :: Held(Store(s, m), axis) == Held(s, axis) + Amount(m, axis)) <==> Fits(s, m)
  {
    if Fits(s, m) {
      forall axis ensures Held(Store(s, m), axis) == Held(s, axis) + Amount(m, axis) {
        SlotConserves(s, m, axis);
      }
    } else {
      var t := Store(s, m);
      var axis := if m.MouseWheel2D? then (if FitsI32(s.wheel.value.x + m.x) then WheelY else WheelX)
                  else if FitsI32(PanOf(s.touch.value).0 + m.x) then PanY else PanX;
      if m.MouseWheel2D? {
        assert t.touch == s.touch;
      } else {
        assert t.wheel == s.wheel;
      }
      assert t.reliable == s.reliable;
      assert Held(t, axis) != Held(s, axis) + Amount(m, axis);
    }
  }
}

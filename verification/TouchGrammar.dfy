/** The touch-gesture protocol, on what the inbox accepts and on what it puts on the wire. */
module TouchGrammar {
  import opened Prelude
  import opened ControlMessages
  import opened InboxModel
  import opened InboxOrder
  import opened InboxLedger

  /** Where a gesture stands after some touch messages; `Broken` once they violated the protocol. */
  datatype Phase = Closed | Streaming | ScaleOver | PanOver | Broken

  predicate Update(m: Msg) {
    m.TouchPanUpdate? || (m.TouchScale? && m.scale > 0)
  }

  /** Start, updates, at most one scale end, at most one pan end, and nothing more until the next start. */
  function Advance(p: Phase, m: Msg): Phase {
    if p == Broken || !TouchKind(m) then p
    else if m.TouchPanStart? then Streaming
    else if Update(m) then (if p == Streaming then p else Broken)
    else if m == TouchScale(0) then (if p == Streaming then ScaleOver else Broken)
    else if m.TouchPanEnd? then (if p == Streaming || p == ScaleOver then PanOver else Broken)
    else Broken
  }

  function AfterQueue(p: Phase, q: seq<Queued>): Phase
    decreases |q|
  {
    if q == [] then p else AfterQueue(Advance(p, q[0].msg), q[1..])
  }

  function AfterOuts(p: Phase, outs: seq<Out>): Phase
    decreases |outs|
  {
    if outs == [] then p else AfterOuts(Advance(p, outs[0].entry.msg), outs[1..])
  }

  function SlotEntries(s: State): seq<Queued> {
    if s.touch.Some? then TouchEntries(s.touch.value) else []
  }

  /** The phase after what was emitted, what is queued and what waits in the touch slot. */
  function WirePhase(sent: Phase, s: State): Phase {
    AfterQueue(AfterQueue(sent, s.reliable), SlotEntries(s))
  }

  function FlagPhase(g: Gesture): Phase {
    if g.active && !g.scaleEnded && !g.panEnded then Streaming
    else if !g.active && g.scaleEnded then (if g.panEnded then PanOver else ScaleOver)
    else if !g.active && !g.panEnded then Closed
    else Broken
  }

  /** The flags either describe the gesture, or (after a revocation) refuse everything until the next start. */
  ghost predicate Follows(flags: Phase, actual: Phase) {
    flags != Broken && actual != Broken && (flags == Closed || flags == actual)
  }

  // ---------------------------------------------------------------- folds

  lemma {:induction false} AfterConcat(p: Phase, a: seq<Queued>, b: seq<Queued>)
    ensures AfterQueue(p, a + b) == AfterQueue(AfterQueue(p, a), b)
    decreases |a|
  {
    if a == [] {
      assert a + b == b;
    } else {
      assert (a + b)[1..] == a[1..] + b;
      AfterConcat(Advance(p, a[0].msg), a[1..], b);
    }
  }

  lemma {:induction false} AfterOutsConcat(p: Phase, a: seq<Out>, b: seq<Out>)
    ensures AfterOuts(p, a + b) == AfterOuts(AfterOuts(p, a), b)
    decreases |a|
  {
    if a == [] {
      assert a + b == b;
    } else {
      assert (a + b)[1..] == a[1..] + b;
      AfterOutsConcat(Advance(p, a[0].entry.msg), a[1..], b);
    }
  }

  lemma {:induction false} AfterOne(p: Phase, e: Queued)
    ensures AfterQueue(p, [e]) == Advance(p, e.msg)
  {
    assert [e][1..] == [];
  }

  lemma {:induction false} BrokenStays(q: seq<Queued>)
    ensures AfterQueue(Broken, q) == Broken
  {
    if q != [] {
      BrokenStays(q[1..]);
    }
  }

  /** Removing updates from a word that keeps the protocol changes nothing else. */
  lemma {:induction false} WithoutUpdates(p: Phase, q: seq<Queued>)
    requires AfterQueue(p, q) != Broken
    ensures AfterQueue(p, Without(q, StaleDeltas)) == AfterQueue(p, q)
    decreases |q|
  {
    if q != [] {
      var next := Advance(p, q[0].msg);
      if next == Broken {
        BrokenStays(q[1..]);
      }
      WithoutUpdates(next, q[1..]);
      var rest := Without(q[1..], StaleDeltas);
      if StaleUpdate(q[0].msg) {
        assert [] + rest == rest;
      } else {
        assert ([q[0]] + rest)[1..] == rest;
      }
    }
  }

  /** Losing the keyboard permission removes every queued touch message; any other permission none. */
  lemma {:induction false} WithoutProtectedPhase(p: Phase, q: seq<Queued>, mask: Mask)
    ensures AfterQueue(p, Without(q, Protected(mask))) == if mask == {KEYBOARD} then p else AfterQueue(p, q)
    decreases |q|
  {
    if q != [] {
      var rest := Without(q[1..], Protected(mask));
      if ProtectedBy(q[0].msg, mask) {
        assert [] + rest == rest;
        WithoutProtectedPhase(if mask == {KEYBOARD} then p else Advance(p, q[0].msg), q[1..], mask);
      } else {
        assert ([q[0]] + rest)[1..] == rest;
        WithoutProtectedPhase(Advance(p, q[0].msg), q[1..], mask);
      }
    }
  }

  // ---------------------------------------------------------------- the touch slot is newest

  /** Every queued message is older than the touch slot, and than the next number. */
  ghost predicate TouchNewest(s: State) {
    && (forall e :: e in s.reliable ==> e.seqno <= s.next)
    && (s.touch.Some? ==> s.touch.value.seqno <= s.next && forall e :: e in s.reliable ==> e.seqno <= s.touch.value.seqno)
    && (s.wheel.Some? ==> s.wheel.value.seqno <= s.next)
  }

  lemma {:induction false} StoreTouchNewest(s: State, m: Msg)
    requires TouchNewest(s) && !m.Shutdown?
    ensures TouchNewest(Store(s, m))
  {
    var t := Store(s, m);
    if Flushes(s, m) {
      FlushingStore(s, m);
    } else if m.DisplaySwitch? {
      WithoutMembers(s.reliable, StaleDeltas);
      assert t.reliable == Without(s.reliable, StaleDeltas) && t.touch.None? && t.wheel.None?;
    } else if m.TouchPanStart? {
      assert t.reliable == s.reliable + [Queued(s.next, m)] && t.touch.None? && t.wheel == s.wheel;
    } else {
      SlotStoreSeqnos(s, m);
    }
  }

  /** A message for a slot leaves the queue alone and numbers its slot with the next number. */
  lemma {:induction false} SlotStoreSeqnos(s: State, m: Msg)
    requires !Flushes(s, m) && !m.DisplaySwitch? && !m.TouchPanStart? && !m.Shutdown?
    ensures var t := Store(s, m);
            && t.reliable == s.reliable && t.next == NextSequence(s.next)
            && (t.touch == s.touch || (t.touch.Some? && t.touch.value.seqno == s.next))
            && (t.wheel == s.wheel || (t.wheel.Some? && t.wheel.value.seqno == s.next))
  {
  }

  lemma {:induction false} PopTouchNewest(s: State)
    requires TouchNewest(s) && NextPending(s).Some?
    ensures TouchNewest(PopOne(s).0)
    ensures PopOne(s).1.from == Touch ==> s.reliable == []
  {
    NextIsOldest(s);
    var s1 := PopOne(s).0;
    if NextPending(s).value.1 == Reliable {
      assert s1 == PopQueue(s);
    } else {
      assert s1.reliable == s.reliable;
      assert s.reliable != [] ==> s.reliable[0] in s.reliable;
    }
  }

  // ---------------------------------------------------------------- one operation

  ghost predicate PositiveSlot(s: State) {
    s.touch.Some? && s.touch.value.Scaled? ==> s.touch.value.scale > 0
  }

  /** The scale is not negative, and merging it does not round the product down to the end marker. */
  ghost predicate SoundScale(s: State, m: Msg) {
    m.TouchScale? ==>
      m.scale >= 0 &&
      (m.scale > 0 && s.touch.Some? && s.touch.value.Scaled? ==> CombineScale(s.touch.value.scale, m.scale) > 0)
  }

  function CountEnds(q: seq<Queued>, pan: bool): nat {
    if q == [] then 0
    else (if (if pan then q[0].msg.TouchPanEnd? else q[0].msg == TouchScale(0)) then 1 else 0) + CountEnds(q[1..], pan)
  }

  ghost predicate CountersMatch(s: State) {
    s.gesture.scaleEnds == CountEnds(s.reliable, false) && s.gesture.panEnds == CountEnds(s.reliable, true)
  }

  ghost predicate GrammarHolds(sent: Phase, s: State) {
    TouchNewest(s) && PositiveSlot(s) && CountersMatch(s) && Follows(FlagPhase(s.gesture), WirePhase(sent, s))
  }

  lemma {:induction false} CountConcat(a: seq<Queued>, b: seq<Queued>, pan: bool)
    ensures CountEnds(a + b, pan) == CountEnds(a, pan) + CountEnds(b, pan)
  {
    if a == [] {
      assert a + b == b;
    } else {
      assert (a + b)[1..] == a[1..] + b;
      CountConcat(a[1..], b, pan);
    }
  }

  lemma {:induction false} CountOne(e: Queued, pan: bool)
    ensures CountEnds([e], pan) == if (if pan then e.msg.TouchPanEnd? else e.msg == TouchScale(0)) then 1 else 0
  {
    assert [e][1..] == [];
  }

  lemma {:induction false} CountWithout(q: seq<Queued>, sweep: Sweep, pan: bool)
    ensures CountEnds(Without(q, sweep), pan) == if sweep == Protected({KEYBOARD}) then 0 else CountEnds(q, pan)
  {
    if q != [] {
      CountWithout(q[1..], sweep, pan);
      var rest := Without(q[1..], sweep);
      if Sweeps(sweep, q[0].msg) {
        assert [] + rest == rest;
      } else {
        assert ([q[0]] + rest)[1..] == rest;
      }
    }
  }

  /** Flushed entries are updates and wheel deltas: no end marker among them. */
  lemma {:induction false} FlushedAreUpdates(s: State)
    requires PositiveSlot(s)
    ensures forall e :: e in Flushed(s) ==> StaleUpdate(e.msg)
    ensures forall p :: AfterQueue(p, Flushed(s)) == AfterQueue(p, SlotEntries(s))
  {
    forall p ensures AfterQueue(p, Flushed(s)) == AfterQueue(p, SlotEntries(s)) {
      if s.wheel.Some? {
        var t, w := SlotEntries(s), WheelEntries(s.wheel.value);
        AfterConcat(p, t, w);
        AfterConcat(p, w, t);
        AfterOne(p, w[0]);
        AfterOne(AfterQueue(p, t), w[0]);
        assert t + w == w || s.touch.Some?;
      }
    }
  }

  lemma {:induction false} CountUpdates(q: seq<Queued>, pan: bool)
    requires forall e :: e in q ==> StaleUpdate(e.msg)
    ensures CountEnds(q, pan) == 0
  {
    if q != [] {
      CountUpdates(q[1..], pan);
    }
  }

  /** A flushing message extends the word by itself. */
  lemma {:induction false} FlushingPhase(sent: Phase, s: State, m: Msg)
    requires Flushes(s, m) && PositiveSlot(s)
    ensures WirePhase(sent, Store(s, m)) == Advance(WirePhase(sent, s), m)
    ensures forall pan :: CountEnds(Store(s, m).reliable, pan)
                       == CountEnds(s.reliable, pan) + CountEnds([Queued(s.next, m)], pan)
  {
    FlushingStore(s, m);
    FlushedAreUpdates(s);
    var own := [Queued(s.next, m)];
    AfterConcat(sent, s.reliable, Flushed(s));
    AfterConcat(sent, s.reliable + Flushed(s), own);
    AfterOne(AfterQueue(sent, s.reliable + Flushed(s)), own[0]);
    forall pan
      ensures CountEnds(Store(s, m).reliable, pan) == CountEnds(s.reliable, pan) + CountEnds(own, pan)
    {
      CountConcat(s.reliable, Flushed(s), pan);
      CountConcat(s.reliable + Flushed(s), own, pan);
      CountUpdates(Flushed(s), pan);
    }
  }

  lemma {:induction false} SlotUpdatePhase(p: Phase, t: TouchSlot)
    requires t.Scaled? ==> t.scale > 0
    ensures AfterQueue(p, TouchEntries(t)) == if p == Streaming then Streaming else Broken
  {
    var es := TouchEntries(t);
    if |es| == 2 {
      assert es == [es[0]] + [es[1]];
      AfterConcat(p, [es[0]], [es[1]]);
      AfterOne(Advance(p, es[0].msg), es[1]);
    }
    AfterOne(p, es[0]);
  }

  lemma {:induction false} StoreFlushing(sent: Phase, s: State, m: Msg)
    requires GrammarHolds(sent, s) && Flushes(s, m) && SoundScale(s, m)
    ensures GrammarHolds(sent, Store(s, m))
  {
    StoreTouchNewest(s, m);
    FlushingPhase(sent, s, m);
    CountOne(Queued(s.next, m), true);
    CountOne(Queued(s.next, m), false);
    var t := Store(s, m);
    if m.TouchPanEnd? {
      assert t.gesture == Gesture(false, true, true, s.gesture.scaleEnds, s.gesture.panEnds + 1);
    } else if m.TouchScale? {
      assert t.gesture == Gesture(false, true, s.gesture.panEnded, s.gesture.scaleEnds + 1, s.gesture.panEnds);
    } else {
      assert t.gesture == s.gesture && !TouchKind(m);
    }
  }

  lemma {:induction false} StorePanStartGrammar(sent: Phase, s: State, m: Msg)
    requires GrammarHolds(sent, s) && m.TouchPanStart?
    ensures GrammarHolds(sent, Store(s, m))
  {
    StoreTouchNewest(s, m);
    var own := [Queued(s.next, m)];
    var t := Store(s, m);
    assert t.reliable == s.reliable + own && t.touch.None?;
    AfterConcat(sent, s.reliable, own);
    AfterOne(AfterQueue(sent, s.reliable), own[0]);
    if AfterQueue(sent, s.reliable) == Broken {
      BrokenStays(SlotEntries(s));
    }
    CountConcat(s.reliable, own, true);
    CountConcat(s.reliable, own, false);
    CountOne(own[0], true);
    CountOne(own[0], false);
  }

  lemma {:induction false} StoreSlot(sent: Phase, s: State, m: Msg)
    requires GrammarHolds(sent, s) && SoundScale(s, m)
    requires Admits(s, m) && !ReliableKind(m) && !m.Shutdown?
    ensures GrammarHolds(sent, Store(s, m))
  {
    StoreTouchNewest(s, m);
    var t := Store(s, m);
    if m.DisplaySwitch? {
      if AfterQueue(sent, s.reliable) == Broken {
        BrokenStays(SlotEntries(s));
      }
      WithoutUpdates(sent, s.reliable);
      if s.touch.Some? {
        SlotUpdatePhase(AfterQueue(sent, s.reliable), s.touch.value);
      }
      CountWithout(s.reliable, StaleDeltas, true);
      CountWithout(s.reliable, StaleDeltas, false);
    } else if m.TouchScale? || m.TouchPanUpdate? {
      assert t.reliable == s.reliable && t.gesture == s.gesture;
      if s.touch.Some? {
        SlotUpdatePhase(AfterQueue(sent, s.reliable), s.touch.value);
      }
      SlotUpdatePhase(AfterQueue(sent, s.reliable), t.touch.value);
    } else {
      assert t.reliable == s.reliable && t.gesture == s.gesture && t.touch == s.touch;
    }
  }

  lemma {:induction false} StoreGrammar(sent: Phase, s: State, m: Msg)
    requires GrammarHolds(sent, s) && SoundScale(s, m) && !m.Shutdown?
    ensures GrammarHolds(sent, Store(s, m))
  {
    if !Admits(s, m) {
      assert Store(s, m) == s.(next := NextSequence(s.next));
    } else if Flushes(s, m) {
      StoreFlushing(sent, s, m);
    } else if m.TouchPanStart? {
      StorePanStartGrammar(sent, s, m);
    } else {
      StoreSlot(sent, s, m);
    }
  }

  lemma {:induction false} DiscardGrammar(sent: Phase, s: State, mask: Mask)
    requires GrammarHolds(sent, s)
    ensures GrammarHolds(sent, DiscardProtected(s, mask))
  {
    WithoutMembers(s.reliable, Protected(mask));
    WithoutProtectedPhase(sent, s.reliable, mask);
    CountWithout(s.reliable, Protected(mask), true);
    CountWithout(s.reliable, Protected(mask), false);
    if sent == Broken {
      BrokenStays(s.reliable);
      BrokenStays(SlotEntries(s));
    }
  }

  lemma {:induction false} PopGrammar(sent: Phase, s: State)
    requires GrammarHolds(sent, s) && Typed(s) && NextPending(s).Some?
    ensures var (s1, out) := PopOne(s);
            GrammarHolds(Advance(sent, out.entry.msg), s1) && Typed(s1)
  {
    PopTouchNewest(s);
    PopConserves(s, PanX);
    var (s1, out) := PopOne(s);
    PopPhase(sent, s);
    assert TouchNewest(s1) && PositiveSlot(s1) && CountersMatch(s1);
  }

  lemma {:induction false} PopPhase(sent: Phase, s: State)
    requires GrammarHolds(sent, s) && Typed(s) && NextPending(s).Some?
    requires NextPending(s).value.1 == Touch ==> s.reliable == []
    ensures var (s1, out) := PopOne(s);
            && WirePhase(Advance(sent, out.entry.msg), s1) == WirePhase(sent, s)
            && FlagPhase(s1.gesture) == FlagPhase(s.gesture) && CountersMatch(s1) && PositiveSlot(s1)
  {
    PopWire(sent, s);
    var slot := NextPending(s).value.1;
    if slot == Reliable {
      PopQueueCounts(s);
    } else if slot != Touch {
      PopOther(s, slot);
    }
  }

  /** Emitting a message moves it from what is pending to what was sent. */
  lemma {:induction false} PopWire(sent: Phase, s: State)
    requires Typed(s) && NextPending(s).Some?
    requires NextPending(s).value.1 == Touch ==> s.reliable == []
    ensures var (s1, out) := PopOne(s);
            WirePhase(Advance(sent, out.entry.msg), s1) == WirePhase(sent, s)
  {
    var slot := NextPending(s).value.1;
    if slot == Touch {
      PopTouchWire(sent, s);
    } else if slot != Reliable {
      PopOther(s, slot);
    }
  }

  lemma {:induction false} PopOther(s: State, slot: Slot)
    requires Typed(s) && NextPending(s).Some? && NextPending(s).value.1 == slot
    requires slot != Touch && slot != Reliable
    ensures var (s1, out) := PopOne(s);
            s1.reliable == s.reliable && s1.touch == s.touch && s1.gesture == s.gesture && !TouchKind(out.entry.msg)
  {
  }

  lemma {:induction false} PopTouchWire(sent: Phase, s: State)
    requires s.touch.Some? && s.reliable == []
    ensures var (s1, out) := PopTouch(s);
            WirePhase(Advance(sent, out.entry.msg), s1) == WirePhase(sent, s)
  {
    var (s1, out) := PopTouch(s);
    var es := TouchEntries(s.touch.value);
    assert es == [es[0]] + SlotEntries(s1);
    AfterConcat(sent, [es[0]], SlotEntries(s1));
    AfterOne(sent, es[0]);
  }

  lemma {:induction false} PopQueueCounts(s: State)
    requires s.reliable != [] && CountersMatch(s)
    ensures CountersMatch(PopQueue(s)) && FlagPhase(PopQueue(s).gesture) == FlagPhase(s.gesture)
  {
  }

  lemma {:induction false} DrainGrammar(sent: Phase, s: State, n: nat)
    requires GrammarHolds(sent, s) && Typed(s)
    ensures GrammarHolds(AfterOuts(sent, Drain(s, n).1), Drain(s, n).0) && Typed(Drain(s, n).0)
    decreases n
  {
    if n > 0 && NextPending(s).Some? {
      PopGrammar(sent, s);
      var (s1, out) := PopOne(s);
      DrainGrammar(Advance(sent, out.entry.msg), s1, n - 1);
      assert ([out] + Drain(s1, n - 1).1)[1..] == Drain(s1, n - 1).1;
    }
  }

  // ---------------------------------------------------------------- runs

  ghost predicate SoundScales(ops: seq<Op>) {
    ops != [] ==>
      var ib, op := Run(ops[..|ops| - 1]), ops[|ops| - 1];
      SoundScales(ops[..|ops| - 1]) && (op.Put? && Passes(ib, op.msg) ==> SoundScale(ib.state, op.msg))
  }

  lemma {:induction false} StepGrammar(sent: Phase, ib: Inbox, op: Op)
    requires GrammarHolds(sent, ib.state) && Typed(ib.state)
    requires op.Put? && Passes(ib, op.msg) ==> SoundScale(ib.state, op.msg)
    ensures GrammarHolds(AfterOuts(sent, Emits(ib, op)), Step(ib, op).state) && Typed(Step(ib, op).state)
  {
    match op
    case Put(m) =>
      if Passes(ib, m) {
        StoreGrammar(sent, ib.state, m);
        StoreTyped(ib.state, m);
      }
      assert AfterOuts(sent, []) == sent;
    case Take(limit) =>
      DrainGrammar(sent, ib.state, limit);
      TailKeepsGrammar(AfterOuts(sent, Emits(ib, op)), Drain(ib.state, limit).0);
    case Permit(mask, enable) => DiscardGrammar(sent, ib.state, mask);
    case Phone(ready) => DiscardGrammar(sent, ib.state, {KEYBOARD});
  }

  lemma {:induction false} TailKeepsGrammar(sent: Phase, s: State)
    requires GrammarHolds(sent, s) && Typed(s)
    ensures forall room: nat :: GrammarHolds(sent, TakeTail(s, room).0) && Typed(TakeTail(s, room).0)
  {
  }

  /**
   * On every run with sound scales, what was put on the wire keeps the gesture protocol (and so would everything
   * still pending), and the two counters are the numbers of end markers in the queue.
   */
  lemma {:induction false} WireKeepsGrammar(ops: seq<Op>)
    requires SoundScales(ops)
    ensures GrammarHolds(AfterOuts(Closed, Emitted(ops)), Run(ops).state) && Typed(Run(ops).state)
    ensures AfterOuts(Closed, Emitted(ops)) != Broken
  {
    if ops != [] {
      var before, op := ops[..|ops| - 1], ops[|ops| - 1];
      WireKeepsGrammar(before);
      StepGrammar(AfterOuts(Closed, Emitted(before)), Run(before), op);
      AfterOutsConcat(Closed, Emitted(before), Emits(Run(before), op));
    }
    var sent, s := AfterOuts(Closed, Emitted(ops)), Run(ops).state;
    if sent == Broken {
      BrokenStays(s.reliable);
      BrokenStays(SlotEntries(s));
    }
  }

  /** The phase of the messages a run accepted. */
  function AcceptedPhase(ops: seq<Op>): Phase {
    if ops == [] then Closed
    else
      var ib, op := Run(ops[..|ops| - 1]), ops[|ops| - 1];
      var p := AcceptedPhase(ops[..|ops| - 1]);
      if op.Put? && Accepts(ib, op.msg) then Advance(p, op.msg) else p
  }

  ghost predicate AcceptsNoNegative(ops: seq<Op>) {
    ops != [] ==>
      var ib, op := Run(ops[..|ops| - 1]), ops[|ops| - 1];
      && AcceptsNoNegative(ops[..|ops| - 1])
      && (op.Put? && op.msg.TouchScale? && Accepts(ib, op.msg) ==> op.msg.scale >= 0)
  }

  lemma {:induction false} DrainKeepsFlags(s: State, n: nat)
    ensures FlagPhase(Drain(s, n).0.gesture) == FlagPhase(s.gesture)
    decreases n
  {
    if n > 0 && NextPending(s).Some? {
      DrainKeepsFlags(PopOne(s).0, n - 1);
    }
  }

  lemma {:induction false} StoreFlags(s: State, m: Msg)
    requires FlagPhase(s.gesture) != Broken && !m.Shutdown?
    requires m.TouchScale? ==> m.scale >= 0
    ensures FlagPhase(Store(s, m).gesture)
         == if Admits(s, m) then Advance(FlagPhase(s.gesture), m) else FlagPhase(s.gesture)
    ensures Admits(s, m) ==> Advance(FlagPhase(s.gesture), m) != Broken
  {
  }

  /** Acceptance alone keeps the protocol: unless a negative scale was accepted, it is a well-formed gesture stream. */
  lemma {:induction false} AcceptanceKeepsGrammar(ops: seq<Op>)
    requires AcceptsNoNegative(ops)
    ensures Follows(FlagPhase(Run(ops).state.gesture), AcceptedPhase(ops))
  {
    if ops != [] {
      var before, op := ops[..|ops| - 1], ops[|ops| - 1];
      AcceptanceKeepsGrammar(before);
      var ib := Run(before);
      match op
      case Put(m) =>
        if Passes(ib, m) {
          StoreFlags(ib.state, m);
        }
      case Take(limit) => DrainKeepsFlags(ib.state, limit);
      case _ =>
    }
  }

  /** Exactly when the accepted messages keep the gesture protocol: a negative scale breaks it, and nothing else does. */
  lemma {:induction false} AcceptanceExactly(ops: seq<Op>)
    ensures AcceptedPhase(ops) != Broken <==> AcceptsNoNegative(ops)
  {
    if AcceptsNoNegative(ops) {
      AcceptanceKeepsGrammar(ops);
    } else {
      AcceptanceExactly(ops[..|ops| - 1]);
    }
  }
}

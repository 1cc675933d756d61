/** Which scales break the gesture protocol on the wire, exactly. */
module TouchBoundary {
  import opened Prelude
  import opened ControlMessages
  import opened InboxModel
  import opened InboxOrder
  import opened InboxLedger
  import opened TouchGrammar

  /** Exactly when merging two positive scales yields the end marker. */
  lemma {:induction false} ZeroProductExact(a: I32, b: I32)
    requires a > 0 && b > 0
    ensures CombineScale(a, b) == 0 <==> a * b < 1000
    ensures CombineScale(a, b) >= 0
  {
    assert a * b > 0;
  }

  /** Two tiny scales merge into an end marker that the counter does not know of. */
  lemma {:induction false} RoundedScaleEndsEarly()
    ensures var s := Store(Store(Store(Store(FRESH_STATE, TouchPanStart(0, 0)), TouchScale(1)), TouchScale(1)), Text(""));
            && s.reliable[1].msg == TouchScale(0)
            && s.gesture.scaleEnds == 0 && StreamOpen(s)
  {
    var s1 := Store(FRESH_STATE, TouchPanStart(0, 0));
    var s2 := Store(s1, TouchScale(1));
    assert s2.touch == Some(Scaled(2, 1, None));
    var s3 := Store(s2, TouchScale(1));
    assert s3.touch == Some(Scaled(3, 0, None)) && s3.wheel.None?;
    assert Flushed(s3) == [Queued(3, TouchScale(0))];
  }

  // ---------------------------------------------------------------- continuations of a run

  /** Every scale a continuation passes on is sound. */
  ghost predicate SoundFrom(ops: seq<Op>, after: seq<Op>)
    decreases |after|
  {
    after != [] ==>
      var front, op := after[..|after| - 1], after[|after| - 1];
      && SoundFrom(ops, front)
      && (op.Put? && Passes(Run(ops + front), op.msg) ==> SoundScale(Run(ops + front).state, op.msg))
  }

  /** A sound continuation after which the messages on the wire violate the protocol. */
  ghost predicate BreaksWire(ops: seq<Op>, after: seq<Op>) {
    SoundFrom(ops, after) && AfterOuts(Closed, Emitted(ops + after)) == Broken
  }

  /** A sound continuation after which a counter is not the number of queued end markers. */
  ghost predicate BreaksCounters(ops: seq<Op>, after: seq<Op>) {
    SoundFrom(ops, after) && !CountersMatch(Run(ops + after).state)
  }

  lemma {:induction false} SoundContinuation(ops: seq<Op>, after: seq<Op>)
    requires SoundScales(ops) && SoundFrom(ops, after)
    ensures SoundScales(ops + after)
    decreases |after|
  {
    if after == [] {
      assert ops + after == ops;
    } else {
      var front := after[..|after| - 1];
      assert (ops + after)[..|ops + after| - 1] == ops + front;
      SoundContinuation(ops, front);
    }
  }

  /** Draining everything puts exactly what was pending on the wire. */
  lemma {:induction false} DrainAllPhase(sent: Phase, s: State, n: nat)
    requires TouchNewest(s) && Typed(s) && PendingCount(s) <= n
    ensures AfterOuts(sent, Drain(s, n).1) == WirePhase(sent, s)
    decreases n
  {
    if NextPending(s).Some? {
      var (s1, out) := PopOne(s);
      PopTouchNewest(s);
      PopCounts(s);
      PopConserves(s, PanX);
      PopWire(sent, s);
      DrainAllPhase(Advance(sent, out.entry.msg), s1, n - 1);
      assert ([out] + Drain(s1, n - 1).1)[1..] == Drain(s1, n - 1).1;
    }
  }

  /** One batch that takes everything shows a pending violation. */
  lemma {:induction false} TakeAllShows(ops: seq<Op>, n: nat)
    requires TouchNewest(Run(ops).state) && Typed(Run(ops).state) && PendingCount(Run(ops).state) <= n
    ensures AfterOuts(Closed, Emitted(ops + [Take(n)])) ==
            WirePhase(AfterOuts(Closed, Emitted(ops)), Run(ops).state)
  {
    RunSnoc(ops, Take(n));
    AfterOutsConcat(Closed, Emitted(ops), Drain(Run(ops).state, n).1);
    DrainAllPhase(AfterOuts(Closed, Emitted(ops)), Run(ops).state, n);
  }

  lemma {:induction false} PutSoundFrom(ops: seq<Op>, m: Msg)
    requires !m.TouchScale?
    ensures SoundFrom(ops, [Put(m)])
  {
    var after := [Put(m)];
    assert after[..0] == [];
    assert SoundFrom(ops, []);
  }

  lemma {:induction false} TakeSoundFrom(ops: seq<Op>, after: seq<Op>, n: nat)
    requires SoundFrom(ops, after)
    ensures SoundFrom(ops, after + [Take(n)])
  {
    assert (after + [Take(n)])[..|after + [Take(n)]| - 1] == after;
  }

  // ---------------------------------------------------------------- what an unsound scale leaves behind

  /** The moment before a scale that reaches the state and is admitted there. */
  ghost predicate ScaleArrives(ops: seq<Op>, m: Msg) {
    SoundScales(ops) && m.TouchScale? && Passes(Run(ops), m) && Admits(Run(ops).state, m)
  }

  /** A negative scale is queued behind everything else, and the protocol knows no such message. */
  lemma {:induction false} NegativeBreaks(ops: seq<Op>, m: Msg) returns (after: seq<Op>)
    requires ScaleArrives(ops, m) && m.scale < 0
    ensures BreaksWire(ops + [Put(m)], after)
  {
    var s, sent := Run(ops).state, AfterOuts(Closed, Emitted(ops));
    var all, n := ops + [Put(m)], PendingCount(Store(s, m));
    WireKeepsGrammar(ops);
    RunSnoc(ops, Put(m));
    assert Emitted(all) == Emitted(ops);
    StoreTouchNewest(s, m);
    StoreTyped(s, m);
    FlushingPhase(sent, s, m);
    TakeAllShows(all, n);
    assert SoundFrom(all, []);
    TakeSoundFrom(all, [], n);
    after := [] + [Take(n)];
    assert all + after == all + [Take(n)];
  }

  /** An open stream with an end marker in its touch slot. */
  ghost predicate EndWaits(s: State) {
    && s.touch.Some? && s.touch.value.Scaled? && s.touch.value.scale == 0
    && TouchNewest(s) && Typed(s) && CountersMatch(s) && StreamOpen(s)
  }

  lemma {:induction false} RoundedStore(s: State, m: Msg)
    requires TouchNewest(s) && Typed(s) && CountersMatch(s) && PositiveSlot(s)
    requires m.TouchScale? && m.scale > 0 && Admits(s, m) && !SoundScale(s, m)
    ensures EndWaits(Store(s, m))
  {
    StoreTouchNewest(s, m);
    StoreTyped(s, m);
    ZeroProductExact(s.touch.value.scale, m.scale);
    var t := Store(s, m);
    assert t.reliable == s.reliable && t.gesture == s.gesture;
    assert t.touch == Some(Scaled(s.next, 0, s.touch.value.pan));
  }

  /** A merge that rounds down leaves an end marker in the touch slot while the stream stays open. */
  lemma {:induction false} RoundedLeavesEnd(ops: seq<Op>, m: Msg)
    requires ScaleArrives(ops, m) && m.scale > 0 && !SoundScale(Run(ops).state, m)
    ensures EndWaits(Run(ops + [Put(m)]).state)
    ensures Passes(Run(ops + [Put(m)]), Text("")) && Passes(Run(ops + [Put(m)]), TouchPanUpdate(0, 0))
  {
    WireKeepsGrammar(ops);
    RunSnoc(ops, Put(m));
    RoundedStore(Run(ops).state, m);
  }

  lemma {:induction false} PanBehindEnd(sent: Phase, s: State)
    requires EndWaits(s)
    ensures var t := Store(s, TouchPanUpdate(0, 0));
            TouchNewest(t) && Typed(t) && WirePhase(sent, t) == Broken
  {
    var pan := TouchPanUpdate(0, 0);
    var t := Store(s, pan);
    StoreTouchNewest(s, pan);
    StoreTyped(s, pan);
    assert t.reliable == s.reliable && t.touch == Some(MergePan(s.touch, s.next, 0, 0));
    EndThenPan(sent, s, t.touch.value);
  }

  /** The next pan update travels behind that end marker. */
  lemma {:induction false} RoundedBreaksWire(ops: seq<Op>) returns (after: seq<Op>)
    requires EndWaits(Run(ops).state) && Passes(Run(ops), TouchPanUpdate(0, 0))
    ensures BreaksWire(ops, after)
  {
    var put := Put(TouchPanUpdate(0, 0));
    RunSnoc(ops, put);
    PanBehindEnd(AfterOuts(Closed, Emitted(ops)), Run(ops).state);
    var n := PendingCount(Run(ops + [put]).state);
    assert Emitted(ops + [put]) == Emitted(ops);
    TakeAllShows(ops + [put], n);
    PutSoundFrom(ops, put.msg);
    TakeSoundFrom(ops, [put], n);
    after := [put] + [Take(n)];
    assert ops + after == ops + [put] + [Take(n)];
  }

  lemma {:induction false} EndThenPan(sent: Phase, s: State, t: TouchSlot)
    requires t.Scaled? && t.scale == 0 && t.pan.Some?
    ensures AfterQueue(AfterQueue(sent, s.reliable), TouchEntries(t)) == Broken
  {
    var p, es := AfterQueue(sent, s.reliable), TouchEntries(t);
    assert es == [es[0]] + [es[1]];
    AfterConcat(p, [es[0]], [es[1]]);
    AfterOne(p, es[0]);
    AfterOne(Advance(p, es[0].msg), es[1]);
  }

  lemma {:induction false} TextAfterEnd(s: State)
    requires EndWaits(s)
    ensures !CountersMatch(Store(s, Text("")))
  {
    var text := Text("");
    var own := [Queued(s.next, text)];
    FlushingStore(s, text);
    CountConcat(s.reliable, Flushed(s), false);
    CountConcat(s.reliable + Flushed(s), own, false);
    CountOne(own[0], false);
    FlushedEnd(s);
    assert Store(s, text).gesture == s.gesture;
  }

  /** The next reliable message flushes it into the queue, where the counter misses it. */
  lemma {:induction false} RoundedBreaksCounters(ops: seq<Op>) returns (after: seq<Op>)
    requires EndWaits(Run(ops).state) && Passes(Run(ops), Text(""))
    ensures BreaksCounters(ops, after)
  {
    RunSnoc(ops, Put(Text("")));
    TextAfterEnd(Run(ops).state);
    PutSoundFrom(ops, Text(""));
    after := [Put(Text(""))];
  }

  lemma {:induction false} FlushedEnd(s: State)
    requires s.touch.Some? && s.touch.value.Scaled? && s.touch.value.scale == 0
    ensures CountEnds(Flushed(s), false) == 1
  {
    var t := TouchEntries(s.touch.value);
    CountOne(t[0], false);
    if |t| == 2 {
      assert t == [t[0]] + [t[1]];
      CountConcat([t[0]], [t[1]], false);
      CountOne(t[1], false);
    } else {
      assert t == [t[0]];
    }
    if s.wheel.Some? {
      var w := WheelEntries(s.wheel.value);
      CountOne(w[0], false);
      CountConcat(t, w, false);
      CountConcat(w, t, false);
    }
  }

  // ---------------------------------------------------------------- the exact conditions

  /**
   * After a run with sound scales, and for any scale that is admitted next: whatever follows, as long as it is sound
   * itself, keeps the wire protocol exactly when this scale is sound.
   */
  lemma {:induction false} WireExactly(ops: seq<Op>, m: Msg)
    requires ScaleArrives(ops, m)
    ensures (forall after :: !BreaksWire(ops + [Put(m)], after)) <==> SoundScale(Run(ops).state, m)
  {
    if SoundScale(Run(ops).state, m) {
      forall after ensures !BreaksWire(ops + [Put(m)], after) {
        if SoundFrom(ops + [Put(m)], after) {
          SoundScaleContinues(ops, m, after);
        }
      }
    } else if m.scale < 0 {
      var after := NegativeBreaks(ops, m);
    } else {
      RoundedLeavesEnd(ops, m);
      var after := RoundedBreaksWire(ops + [Put(m)]);
    }
  }

  /** The same for the counters of queued end markers, which a negative scale leaves alone. */
  lemma {:induction false} CountersExactly(ops: seq<Op>, m: Msg)
    requires ScaleArrives(ops, m) && m.scale >= 0
    ensures (forall after :: !BreaksCounters(ops + [Put(m)], after)) <==> SoundScale(Run(ops).state, m)
  {
    if SoundScale(Run(ops).state, m) {
      forall after ensures !BreaksCounters(ops + [Put(m)], after) {
        if SoundFrom(ops + [Put(m)], after) {
          SoundScaleContinues(ops, m, after);
        }
      }
    } else {
      RoundedLeavesEnd(ops, m);
      var after := RoundedBreaksCounters(ops + [Put(m)]);
    }
  }

  lemma {:induction false} SoundScaleContinues(ops: seq<Op>, m: Msg, after: seq<Op>)
    requires SoundScales(ops) && SoundScale(Run(ops).state, m) && SoundFrom(ops + [Put(m)], after)
    ensures var all := ops + [Put(m)] + after;
            AfterOuts(Closed, Emitted(all)) != Broken && CountersMatch(Run(all).state)
  {
    assert (ops + [Put(m)])[..|ops + [Put(m)]| - 1] == ops;
    SoundContinuation(ops + [Put(m)], after);
    WireKeepsGrammar(ops + [Put(m)] + after);
  }
}

/** The inbox object. Each method is one critical section and refines its function on the value model. */
module ControlInbox {
  import opened Prelude
  import opened ControlMessages
  import opened InboxModel

  class Controls {
    var nextSequence: nat
    var reliable: seq<Queued>
    var displaySwitch: Option<Queued>
    var mouseMove: Option<Queued>
    var refreshPending: bool
    var videoPressure: Option<nat>
    var touchUpdate: Option<TouchSlot>
    var mouseWheel2D: Option<WheelSlot>
    var touchActive: bool
    var touchScaleEndPending: bool
    var touchPanEndEnqueued: bool
    var pendingTouchScaleEndMarkers: nat
    var pendingTouchPanEnds: nat
    var permissionKnown: Mask
    var permissionEnabled: Mask
    var phoneInputEnabled: bool
    var phoneInputReady: bool
    var phoneInputEpoch: nat
    var shutdownFlag: bool

    /** The queue and slots as a value. */
    function StateView(): State
      reads this
    {
      State(nextSequence, reliable, displaySwitch, mouseMove, refreshPending, videoPressure, touchUpdate,
            mouseWheel2D,
            Gesture(touchActive, touchScaleEndPending, touchPanEndEnqueued,
                    pendingTouchScaleEndMarkers, pendingTouchPanEnds))
    }

    function View(): Inbox
      reads this
    {
      Inbox(StateView(), permissionKnown, permissionEnabled, phoneInputEnabled, phoneInputReady,
            phoneInputEpoch, shutdownFlag)
    }

    constructor ()
      ensures View() == FRESH
    {
      nextSequence, reliable, displaySwitch, mouseMove := 1, [], None, None;
      refreshPending, videoPressure, touchUpdate, mouseWheel2D := false, None, None, None;
      touchActive := false;
      touchScaleEndPending := false;
      touchPanEndEnqueued := false;
      pendingTouchScaleEndMarkers := 0;
      pendingTouchPanEnds := 0;
      permissionKnown, permissionEnabled := {}, {};
      phoneInputEnabled, phoneInputReady, phoneInputEpoch, shutdownFlag := false, true, 0, false;
    }

    method EnqueueReliable(seqno: nat, m: Msg)
      modifies this`reliable
      ensures StateView() == Push(old(StateView()), seqno, m)
    {
      reliable := reliable + [Queued(seqno, m)];
    }

    method EnqueueTouchUpdate(t: TouchSlot)
      modifies this`reliable
      ensures reliable == old(reliable) + TouchEntries(t)
    {
      if t.Scaled? {
        EnqueueReliable(t.seqno, TouchScale(t.scale));
        if t.pan.Some? {
          EnqueueReliable(t.seqno, TouchPanUpdate(t.pan.value.0, t.pan.value.1));
        }
      } else {
        EnqueueReliable(t.seqno, TouchPanUpdate(t.shift.0, t.shift.1));
      }
    }

    method EnqueueMouseWheel2D(w: WheelSlot)
      modifies this`reliable
      ensures reliable == old(reliable) + WheelEntries(w)
    {
      EnqueueReliable(w.seqno, MouseWheel2D(w.x, w.y));
    }

    method FlushCoalescedPointerUpdates()
      modifies this`reliable, this`touchUpdate, this`mouseWheel2D
      ensures StateView() == Flush(old(StateView()))
    {
      var touch, wheel := touchUpdate, mouseWheel2D;
      touchUpdate := None;
      mouseWheel2D := None;
      if touch.Some? && wheel.Some? && touch.value.seqno <= wheel.value.seqno {
        EnqueueTouchUpdate(touch.value);
        EnqueueMouseWheel2D(wheel.value);
      } else if touch.Some? && wheel.Some? {
        EnqueueMouseWheel2D(wheel.value);
        EnqueueTouchUpdate(touch.value);
      } else if touch.Some? {
        EnqueueTouchUpdate(touch.value);
      } else if wheel.Some? {
        EnqueueMouseWheel2D(wheel.value);
      }
    }

    method DiscardStalePointerUpdates()
      modifies this`reliable, this`touchUpdate, this`mouseWheel2D, this`mouseMove
      ensures StateView() == DiscardStale(old(StateView()))
    {
      mouseMove := None;
      touchUpdate := None;
      mouseWheel2D := None;
      reliable := Without(reliable, StaleDeltas);
    }

    method DiscardPermissionControls(permission: Mask)
      modifies this`reliable, this`mouseMove, this`touchUpdate, this`mouseWheel2D, this`touchActive,
               this`touchScaleEndPending, this`touchPanEndEnqueued, this`pendingTouchScaleEndMarkers,
               this`pendingTouchPanEnds
      ensures StateView() == DiscardProtected(old(StateView()), permission)
    {
      reliable := Without(reliable, Protected(permission));
      if mouseMove.Some? && ProtectedBy(mouseMove.value.msg, permission) {
        mouseMove := None;
      }
      if permission == {KEYBOARD} {
        touchUpdate := None;
        mouseWheel2D := None;
        touchActive := false;
        touchScaleEndPending := false;
        touchPanEndEnqueued := false;
        pendingTouchScaleEndMarkers := 0;
        pendingTouchPanEnds := 0;
      }
    }

    /** The phone gate and the permission masks, checked in that order. */
    method CheckGates(m: Msg) returns (passes: bool)
      requires !m.Shutdown?
      ensures passes == Passes(View(), m)
    {
      var permission := RequiredPermission(m);
      if phoneInputEnabled && permission == Some(KEYBOARD) && !phoneInputReady {
        return false;
      }
      if permission.Some? && permission.value in permissionKnown && permission.value !in permissionEnabled {
        return false;
      }
      return true;
    }

    method PutGated(m: Msg) returns (accepted: bool)
      requires !m.Shutdown?
      modifies this`nextSequence, this`reliable, this`displaySwitch, this`mouseMove,
               this`refreshPending, this`videoPressure, this`touchUpdate, this`mouseWheel2D, this`touchActive,
               this`touchScaleEndPending, this`touchPanEndEnqueued, this`pendingTouchScaleEndMarkers,
               this`pendingTouchPanEnds
      ensures accepted == Accepts(old(View()), m)
      ensures StateView() == Enqueue(old(View()), m).state
    {
      accepted := CheckGates(m);
      if accepted {
        accepted := StoreMessage(m);
      }
    }

    /** Whether the message was accepted; its effect is that of `Enqueue` on the value model. */
    method Put(m: Msg) returns (accepted: bool)
      modifies this`shutdownFlag, this`nextSequence, this`reliable, this`displaySwitch, this`mouseMove,
               this`refreshPending, this`videoPressure, this`touchUpdate, this`mouseWheel2D, this`touchActive,
               this`touchScaleEndPending, this`touchPanEndEnqueued, this`pendingTouchScaleEndMarkers,
               this`pendingTouchPanEnds
      ensures accepted == Accepts(old(View()), m)
      ensures StateView() == Enqueue(old(View()), m).state
      ensures shutdownFlag == Enqueue(old(View()), m).shutdown
    {
      if m.Shutdown? {
        shutdownFlag := true;
        return true;
      }
      accepted := PutGated(m);
    }

    /** Stores a message that passed the gates; a refused one still consumes its sequence number. */
    method StoreMessage(m: Msg) returns (accepted: bool)
      modifies this`nextSequence, this`reliable, this`displaySwitch, this`mouseMove, this`refreshPending,
               this`videoPressure, this`touchUpdate, this`mouseWheel2D, this`touchActive,
               this`touchScaleEndPending, this`touchPanEndEnqueued, this`pendingTouchScaleEndMarkers,
               this`pendingTouchPanEnds
      ensures accepted == Admits(old(StateView()), m)
      ensures StateView() == Store(old(StateView()), m)
    {
      var sequence := nextSequence;
      nextSequence := NextSequence(nextSequence);
      if TouchKind(m) {
        accepted := StoreTouch(sequence, m);
      } else if m.MouseWheel2D? && m.x == 0 && m.y == 0 {
        accepted := false;
      } else {
        StoreOther(sequence, m);
        accepted := true;
      }
    }

    method StoreOther(sequence: nat, m: Msg)
      requires !TouchKind(m)
      modifies this`reliable, this`displaySwitch, this`mouseMove, this`refreshPending, this`videoPressure,
               this`touchUpdate, this`mouseWheel2D
      ensures StateView() == StoreAt(old(StateView()), sequence, m)
    {
      if m.MouseWheel2D? {
        mouseWheel2D := Some(MergeWheel(mouseWheel2D, sequence, m.x, m.y));
      } else if m.MouseMove? {
        mouseMove := Some(Queued(sequence, m));
      } else if m.DisplaySwitch? {
        DiscardStalePointerUpdates();
        displaySwitch := Some(Queued(sequence, m));
      } else if m.RefreshVideo? {
        refreshPending := true;
      } else if m.VideoPressure? {
        videoPressure := Some(m.level);
      } else {
        FlushCoalescedPointerUpdates();
        EnqueueReliable(sequence, m);
      }
    }

    /** The touch-gesture part of the dispatch. */
    method StoreTouch(sequence: nat, m: Msg) returns (accepted: bool)
      requires TouchKind(m)
      modifies this`reliable, this`touchUpdate, this`mouseWheel2D, this`touchActive, this`touchScaleEndPending,
               this`touchPanEndEnqueued, this`pendingTouchScaleEndMarkers, this`pendingTouchPanEnds
      ensures accepted == Admits(old(StateView()), m)
      ensures StateView() == if accepted then StoreAt(old(StateView()), sequence, m) else old(StateView())
    {
      accepted := true;
      if m.TouchPanStart? {
        touchUpdate := None;
        touchActive := true;
        touchScaleEndPending := false;
        touchPanEndEnqueued := false;
        EnqueueReliable(sequence, m);
      } else if m.TouchScale? {
        accepted := StoreTouchScale(sequence, m.scale);
      } else if m.TouchPanUpdate? {
        if !touchActive || touchScaleEndPending {
          return false;
        }
        touchUpdate := Some(MergePan(touchUpdate, sequence, m.x, m.y));
      } else {
        if touchPanEndEnqueued || (!touchActive && !touchScaleEndPending) {
          return false;
        }
        FlushCoalescedPointerUpdates();
        touchActive := false;
        touchScaleEndPending := true;
        touchPanEndEnqueued := true;
        pendingTouchPanEnds := pendingTouchPanEnds + 1;
        EnqueueReliable(sequence, m);
      }
    }

    method StoreTouchScale(sequence: nat, scale: I32) returns (accepted: bool)
      modifies this`reliable, this`touchUpdate, this`mouseWheel2D, this`touchActive, this`touchScaleEndPending,
               this`pendingTouchScaleEndMarkers
      ensures accepted == (scale < 0 || StreamOpen(old(StateView())))
      ensures StateView() == if accepted then StoreScale(old(StateView()), sequence, scale) else old(StateView())
    {
      if scale >= 0 && (!touchActive || touchScaleEndPending) {
        return false;
      }
      if scale > 0 {
        touchUpdate := Some(MergeScale(touchUpdate, sequence, scale));
      } else {
        FlushCoalescedPointerUpdates();
        if scale == 0 {
          touchScaleEndPending := true;
          touchActive := false;
          pendingTouchScaleEndMarkers := pendingTouchScaleEndMarkers + 1;
        }
        EnqueueReliable(sequence, TouchScale(scale));
      }
      return true;
    }

    method OnReliableSent(m: Msg)
      modifies this`pendingTouchScaleEndMarkers, this`pendingTouchPanEnds
      ensures pendingTouchScaleEndMarkers
              == if m == TouchScale(0) then CountDown(old(pendingTouchScaleEndMarkers))
                 else old(pendingTouchScaleEndMarkers)
      ensures pendingTouchPanEnds
              == if m.TouchPanEnd? then CountDown(old(pendingTouchPanEnds)) else old(pendingTouchPanEnds)
    {
      if m == TouchScale(0) {
        pendingTouchScaleEndMarkers := CountDown(pendingTouchScaleEndMarkers);
      } else if m.TouchPanEnd? {
        pendingTouchPanEnds := CountDown(pendingTouchPanEnds);
      }
    }

    /** Moves the touch slot into the batch, as far as the limit allows: scale first, then pan. */
    method TakeTouchUpdate(batch: seq<Msg>, limit: nat) returns (filled: seq<Msg>)
      requires touchUpdate.Some? && |batch| < limit
      modifies this`touchUpdate
      ensures filled == batch + TouchPart(old(touchUpdate).value, limit - |batch|)
      ensures touchUpdate == TouchLeft(old(touchUpdate).value, limit - |batch|)
    {
      var t := touchUpdate.value;
      touchUpdate := None;
      filled := batch;
      if t.Scaled? {
        filled := filled + [TouchScale(t.scale)];
        if t.pan.Some? {
          if |filled| < limit {
            filled := filled + [TouchPanUpdate(t.pan.value.0, t.pan.value.1)];
          } else {
            touchUpdate := Some(Panned(t.seqno, t.pan.value));
          }
        }
      } else {
        filled := filled + [TouchPanUpdate(t.shift.0, t.shift.1)];
      }
    }

    method PopReliable() returns (m: Msg)
      requires reliable != []
      modifies this`reliable, this`pendingTouchScaleEndMarkers, this`pendingTouchPanEnds
      ensures StateView() == PopQueue(old(StateView()))
      ensures m == old(reliable)[0].msg
    {
      m := reliable[0].msg;
      reliable := reliable[1..];
      OnReliableSent(m);
    }

    /** One round of the batch loop, on the slot or queue that is next in order. */
    method TakeNext(slot: Slot, batch: seq<Msg>, limit: nat) returns (filled: seq<Msg>)
      requires |batch| < limit
      requires NextPending(StateView()).Some? && NextPending(StateView()).value.1 == slot
      modifies this`reliable, this`mouseMove, this`touchUpdate, this`mouseWheel2D, this`displaySwitch,
               this`pendingTouchScaleEndMarkers, this`pendingTouchPanEnds
      ensures |batch| < |filled| <= limit
      ensures Filling(StateView(), filled, limit) == Filling(old(StateView()), batch, limit)
    {
      ghost var before := StateView();
      DrainUnfolds(before, batch, limit);
      if slot == Reliable {
        var m := PopReliable();
        filled := batch + [m];
      } else if slot == Mouse {
        filled := batch + [mouseMove.value.msg];
        mouseMove := None;
      } else if slot == Touch {
        TouchUnfolds(before, batch, limit);
        filled := TakeTouchUpdate(batch, limit);
      } else if slot == Wheel {
        filled := batch + [MouseWheel2D(mouseWheel2D.value.x, mouseWheel2D.value.y)];
        mouseWheel2D := None;
      } else {
        filled := batch + [displaySwitch.value.msg];
        displaySwitch := None;
      }
    }

    /** Emits up to `limit` messages: the drained order, then refresh and pressure if there is room. */
    method TakeBatchOf(limit: nat) returns (batch: seq<Msg>)
      modifies this`reliable, this`mouseMove, this`touchUpdate, this`mouseWheel2D, this`displaySwitch,
               this`pendingTouchScaleEndMarkers, this`pendingTouchPanEnds, this`refreshPending, this`videoPressure
      ensures StateView() == TakeBatch(old(StateView()), limit).0
      ensures batch == TakeBatch(old(StateView()), limit).1
      ensures |batch| <= limit
    {
      batch := [];
      while |batch| < limit
        invariant |batch| <= limit
        invariant Filling(StateView(), batch, limit) == Filling(old(StateView()), [], limit)
        invariant refreshPending == old(refreshPending) && videoPressure == old(videoPressure)
      {
        var next := NextPending(StateView());
        if next.None? {
          break;
        }
        batch := TakeNext(next.value.1, batch, limit);
      }
      FillingDone(StateView(), batch, limit);
      if |batch| < limit && refreshPending {
        refreshPending := false;
        batch := batch + [RefreshVideo];
      }
      if |batch| < limit && videoPressure.Some? {
        batch := batch + [VideoPressure(videoPressure.value)];
        videoPressure := None;
      }
    }

    method UpdatePermissionMask(permission: Mask, enable: bool)
      modifies this
      ensures View() == UpdatePermission(old(View()), permission, enable)
    {
      if permission == {} {
        return;
      }
      if enable {
        permissionEnabled := permissionEnabled + permission;
      } else {
        permissionEnabled := permissionEnabled - permission;
      }
      permissionKnown := permissionKnown + permission;
      if enable {
        return;
      }
      DiscardPermissionControls(permission);
    }

    method SetPhoneGeometryReady(ready: bool)
      modifies this`phoneInputEnabled, this`phoneInputReady, this`phoneInputEpoch,
               this`reliable, this`mouseMove, this`touchUpdate, this`mouseWheel2D, this`touchActive,
               this`touchScaleEndPending, this`touchPanEndEnqueued, this`pendingTouchScaleEndMarkers,
               this`pendingTouchPanEnds
      ensures View() == SetPhoneReady(old(View()), ready)
    {
      phoneInputEnabled := true;
      phoneInputReady := ready;
      if !ready {
        phoneInputEpoch := (phoneInputEpoch + 1) % (U64_MAX + 1);
        DiscardPermissionControls({KEYBOARD});
      }
    }
  }

  /** The state and the batch that draining ends with, from a partly filled batch. */
  function Filling(s: State, batch: seq<Msg>, limit: nat): (State, seq<Msg>)
    requires |batch| <= limit
  {
    var drained := Drain(s, limit - |batch|);
    (drained.0, batch + Messages(drained.1))
  }

  function TouchPart(t: TouchSlot, room: nat): seq<Msg>
    requires room > 0
  {
    match t
    case Scaled(_, scale, None) => [TouchScale(scale)]
    case Scaled(_, scale, Some(shift)) =>
      if room > 1 then [TouchScale(scale), TouchPanUpdate(shift.0, shift.1)] else [TouchScale(scale)]
    case Panned(_, shift) => [TouchPanUpdate(shift.0, shift.1)]
  }

  function TouchLeft(t: TouchSlot, room: nat): Option<TouchSlot>
    requires room > 0
  {
    if t.Scaled? && t.pan.Some? && room == 1 then Some(Panned(t.seqno, t.pan.value)) else None
  }

  lemma {:induction false} DrainUnfolds(s: State, batch: seq<Msg>, limit: nat)
    requires |batch| < limit && NextPending(s).Some?
    ensures var (s1, out) := PopOne(s);
            Filling(s, batch, limit) == Filling(s1, batch + [out.entry.msg], limit)
  {
    var (s1, out) := PopOne(s);
    var rest := Drain(s1, limit - |batch| - 1).1;
    assert Messages([out] + rest) == [out.entry.msg] + Messages(rest);
    assert batch + ([out.entry.msg] + Messages(rest)) == batch + [out.entry.msg] + Messages(rest);
  }

  lemma {:induction false} FillingDone(s: State, batch: seq<Msg>, limit: nat)
    requires |batch| <= limit
    requires |batch| == limit || NextPending(s).None?
    ensures Filling(s, batch, limit) == (s, batch)
  {
    assert Drain(s, limit - |batch|) == (s, []);
    assert batch + Messages([]) == batch;
  }

  /** The touch slot empties into the batch as the drain would: its pan stays next after its scale. */
  lemma {:induction false} TouchUnfolds(s: State, batch: seq<Msg>, limit: nat)
    requires |batch| < limit
    requires NextPending(s).Some? && NextPending(s).value.1 == Touch
    ensures Filling(s, batch, limit)
         == Filling(s.(touch := TouchLeft(s.touch.value, limit - |batch|)),
                    batch + TouchPart(s.touch.value, limit - |batch|), limit)
  {
    DrainUnfolds(s, batch, limit);
    var (s1, out) := PopOne(s);
    if s.touch.value.Scaled? && s.touch.value.pan.Some? && limit - |batch| > 1 {
      TouchStaysNext(s);
      DrainUnfolds(s1, batch + [out.entry.msg], limit);
      assert batch + [out.entry.msg] + [PopOne(s1).1.entry.msg]
          == batch + TouchPart(s.touch.value, limit - |batch|);
    }
  }

  lemma {:induction false} TouchStaysNext(s: State)
    requires NextPending(s).Some? && NextPending(s).value.1 == Touch
    requires s.touch.value.Scaled? && s.touch.value.pan.Some?
    ensures NextPending(PopOne(s).0) == NextPending(s)
  {
  }
}

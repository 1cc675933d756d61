/** The control inbox as a value: one function per critical section, and runs of them. */
module InboxModel {
  import opened Prelude
  import opened ControlMessages

  /** A message with the sequence number that orders it among queue and slots. */
  datatype Queued = Queued(seqno: nat, msg: Msg)

  type Vec = (I32, I32)

  /** The unified touch slot: a scale with perhaps a pan, or a pan alone. It is never kept empty. */
  datatype TouchSlot = Scaled(seqno: nat, scale: I32, pan: Option<Vec>) | Panned(seqno: nat, shift: Vec)

  datatype WheelSlot = WheelSlot(seqno: nat, x: I32, y: I32)

  /** The touch-gesture flags and the counts of end markers still queued. */
  datatype Gesture = Gesture(active: bool, scaleEnded: bool, panEnded: bool, scaleEnds: nat, panEnds: nat)

  datatype State = State(
    next: nat,
    reliable: seq<Queued>,
    displaySwitch: Option<Queued>,
    mouseMove: Option<Queued>,
    refresh: bool,
    pressure: Option<nat>,
    touch: Option<TouchSlot>,
    wheel: Option<WheelSlot>,
    gesture: Gesture)

  const FRESH_STATE :=
    State(1, [], None, None, false, None, None, None, NO_GESTURE)

  /** Fixed-point product of two scales: base 1000, truncated toward zero, clamped to i32. */
  function CombineScale(previous: I32, next: I32): I32 {
    ClampI32(TruncatedDiv1000(previous * next))
  }

  function TruncatedDiv1000(x: int): int {
    if x >= 0 then x / 1000 else -((-x) / 1000)
  }

  function MergeScale(t: Option<TouchSlot>, seqno: nat, scale: I32): TouchSlot {
    match t
    case None => Scaled(seqno, scale, None)
    case Some(Scaled(_, previous, pan)) => Scaled(seqno, CombineScale(previous, scale), pan)
    case Some(Panned(_, shift)) => Scaled(seqno, scale, Some(shift))
  }

  function AddVec(v: Vec, x: I32, y: I32): Vec {
    (SaturatingAdd(v.0, x), SaturatingAdd(v.1, y))
  }

  function MergePan(t: Option<TouchSlot>, seqno: nat, x: I32, y: I32): TouchSlot {
    match t
    case None => Panned(seqno, (x, y))
    case Some(Scaled(_, scale, None)) => Scaled(seqno, scale, Some((x, y)))
    case Some(Scaled(_, scale, Some(shift))) => Scaled(seqno, scale, Some(AddVec(shift, x, y)))
    case Some(Panned(_, shift)) => Panned(seqno, AddVec(shift, x, y))
  }

  function MergeWheel(w: Option<WheelSlot>, seqno: nat, x: I32, y: I32): WheelSlot {
    match w
    case None => WheelSlot(seqno, x, y)
    case Some(slot) => WheelSlot(seqno, SaturatingAdd(slot.x, x), SaturatingAdd(slot.y, y))
  }

  function PanEntry(seqno: nat, shift: Vec): Queued {
    Queued(seqno, TouchPanUpdate(shift.0, shift.1))
  }

  function TouchEntries(t: TouchSlot): seq<Queued> {
    match t
    case Scaled(q, scale, None) => [Queued(q, TouchScale(scale))]
    case Scaled(q, scale, Some(shift)) => [Queued(q, TouchScale(scale)), PanEntry(q, shift)]
    case Panned(q, shift) => [PanEntry(q, shift)]
  }

  function WheelEntries(w: WheelSlot): seq<Queued> {
    [Queued(w.seqno, MouseWheel2D(w.x, w.y))]
  }

  /** What a flush moves from the delta slots to the queue, older slot first. */
  function Flushed(s: State): seq<Queued> {
    match (s.touch, s.wheel)
    case (Some(t), Some(w)) =>
      if t.seqno <= w.seqno then TouchEntries(t) + WheelEntries(w) else WheelEntries(w) + TouchEntries(t)
    case (Some(t), None) => TouchEntries(t)
    case (None, Some(w)) => WheelEntries(w)
    case (None, None) => []
  }

  function Flush(s: State): State {
    s.(reliable := s.reliable + Flushed(s), touch := None, wheel := None)
  }

  function Push(s: State, seqno: nat, m: Msg): State {
    s.(reliable := s.reliable + [Queued(seqno, m)])
  }

  /** What a sweep of the queue removes: stale pointer deltas, or what one permission protects. */
  datatype Sweep = StaleDeltas | Protected(mask: Mask)

  predicate Sweeps(sweep: Sweep, m: Msg) {
    if sweep.StaleDeltas? then StaleUpdate(m) else ProtectedBy(m, sweep.mask)
  }

  function Without(queue: seq<Queued>, sweep: Sweep): seq<Queued> {
    if queue == [] then []
    else (if Sweeps(sweep, queue[0].msg) then [] else [queue[0]]) + Without(queue[1..], sweep)
  }

  function DiscardStale(s: State): State {
    s.(mouseMove := None, touch := None, wheel := None,
       reliable := Without(s.reliable, StaleDeltas))
  }

  const NO_GESTURE := Gesture(false, false, false, 0, 0)

  /** What losing exactly the permissions in `mask` removes; losing the keyboard also ends gestures. */
  function DiscardProtected(s: State, mask: Mask): State {
    var keyboard := mask == {KEYBOARD};
    State(s.next, Without(s.reliable, Protected(mask)), s.displaySwitch,
          if s.mouseMove.Some? && ProtectedBy(s.mouseMove.value.msg, mask) then None else s.mouseMove,
          s.refresh, s.pressure,
          if keyboard then None else s.touch, if keyboard then None else s.wheel,
          if keyboard then NO_GESTURE else s.gesture)
  }

  function NextSequence(n: nat): nat {
    if n < U64_MAX then n + 1 else n
  }

  /** Whether an update or a scale end belongs to an open touch stream. */
  predicate StreamOpen(s: State) {
    s.gesture.active && !s.gesture.scaleEnded
  }

  predicate PanEndAllowed(s: State) {
    !s.gesture.panEnded && (s.gesture.active || s.gesture.scaleEnded)
  }

  /** The state-dependent part of acceptance. */
  predicate Admits(s: State, m: Msg) {
    if m.MouseWheel2D? then m.x != 0 || m.y != 0
    else if m.TouchScale? then m.scale < 0 || StreamOpen(s)
    else if m.TouchPanUpdate? then StreamOpen(s)
    else if m.TouchPanEnd? then PanEndAllowed(s)
    else true
  }

  function StorePanStart(s: State, q: nat, m: Msg): State {
    Push(s.(touch := None, gesture := Gesture(true, false, false, s.gesture.scaleEnds, s.gesture.panEnds)), q, m)
  }

  function StoreScale(s: State, q: nat, scale: I32): State {
    if scale > 0 then s.(touch := Some(MergeScale(s.touch, q, scale)))
    else if scale == 0 then
      var g := s.gesture;
      Push(Flush(s).(gesture := Gesture(false, true, g.panEnded, g.scaleEnds + 1, g.panEnds)), q, TouchScale(0))
    else Push(Flush(s), q, TouchScale(scale))
  }

  function StorePanEnd(s: State, q: nat, m: Msg): State {
    var g := s.gesture;
    Push(Flush(s).(gesture := Gesture(false, true, true, g.scaleEnds, g.panEnds + 1)), q, m)
  }

  /** Stores an admitted message under sequence number `q`. */
  function StoreAt(s: State, q: nat, m: Msg): State {
    if m.MouseWheel2D? then s.(wheel := Some(MergeWheel(s.wheel, q, m.x, m.y)))
    else if m.MouseMove? then s.(mouseMove := Some(Queued(q, m)))
    else if m.DisplaySwitch? then DiscardStale(s).(displaySwitch := Some(Queued(q, m)))
    else if m.RefreshVideo? then s.(refresh := true)
    else if m.VideoPressure? then s.(pressure := Some(m.level))
    else if m.TouchPanStart? then StorePanStart(s, q, m)
    else if m.TouchScale? then StoreScale(s, q, m.scale)
    else if m.TouchPanUpdate? then s.(touch := Some(MergePan(s.touch, q, m.x, m.y)))
    else if m.TouchPanEnd? then StorePanEnd(s, q, m)
    else Push(Flush(s), q, m)
  }

  /** Stores a message that passed the gates. A refused message still consumes its sequence number. */
  function Store(s: State, m: Msg): State {
    var numbered := s.(next := NextSequence(s.next));
    if Admits(s, m) then StoreAt(numbered, s.next, m) else numbered
  }

  datatype Slot = Reliable | Mouse | Touch | Wheel | Display

  /** The better of two candidates: strictly smaller sequence numbers win. */
  function Better(best: Option<(nat, Slot)>, candidate: Option<nat>, slot: Slot): Option<(nat, Slot)> {
    if candidate.Some? && (best.None? || candidate.value < best.value.0)
    then Some((candidate.value, slot)) else best
  }

  function QueueHead(s: State): Option<nat> {
    if s.reliable == [] then None else Some(s.reliable[0].seqno)
  }

  function MouseHead(s: State): Option<nat> {
    if s.mouseMove.Some? then Some(s.mouseMove.value.seqno) else None
  }

  function TouchHead(s: State): Option<nat> {
    if s.touch.Some? then Some(s.touch.value.seqno) else None
  }

  function WheelHead(s: State): Option<nat> {
    if s.wheel.Some? then Some(s.wheel.value.seqno) else None
  }

  function DisplayHead(s: State): Option<nat> {
    if s.displaySwitch.Some? then Some(s.displaySwitch.value.seqno) else None
  }

  function NextPending(s: State): Option<(nat, Slot)> {
    Better(Better(Better(Better(Better(None, QueueHead(s), Reliable),
                                MouseHead(s), Mouse), TouchHead(s), Touch), WheelHead(s), Wheel),
           DisplayHead(s), Display)
  }

  /** An emitted message, with the place it came from. */
  datatype Out = Out(from: Slot, entry: Queued)

  function CountDown(n: nat): nat {
    if n == 0 then 0 else n - 1
  }

  function PopQueue(s: State): State
    requires s.reliable != []
  {
    var m := s.reliable[0].msg;
    var g := s.gesture;
    s.(reliable := s.reliable[1..],
       gesture := Gesture(g.active, g.scaleEnded, g.panEnded,
                          if m == TouchScale(0) then CountDown(g.scaleEnds) else g.scaleEnds,
                          if m.TouchPanEnd? then CountDown(g.panEnds) else g.panEnds))
  }

  /** Takes the scale of the touch slot first, its pan next. */
  function PopTouch(s: State): (State, Out)
    requires s.touch.Some?
  {
    var t := s.touch.value;
    var left := if t.Scaled? && t.pan.Some? then Some(Panned(t.seqno, t.pan.value)) else None;
    (s.(touch := left), Out(Touch, TouchEntries(t)[0]))
  }

  /** Emits one message: the pending one with the smallest sequence number. */
  function PopOne(s: State): (State, Out)
    requires NextPending(s).Some?
  {
    match NextPending(s).value.1
    case Reliable => (PopQueue(s), Out(Reliable, s.reliable[0]))
    case Mouse => (s.(mouseMove := None), Out(Mouse, s.mouseMove.value))
    case Touch => PopTouch(s)
    case Wheel => (s.(wheel := None), Out(Wheel, WheelEntries(s.wheel.value)[0]))
    case Display => (s.(displaySwitch := None), Out(Display, s.displaySwitch.value))
  }

  /** Emits up to `n` messages. */
  function Drain(s: State, n: nat): (State, seq<Out>)
    decreases n
  {
    if n == 0 || NextPending(s).None? then (s, [])
    else
      var (s1, out) := PopOne(s);
      var (s2, outs) := Drain(s1, n - 1);
      (s2, [out] + outs)
  }

  function Messages(outs: seq<Out>): (r: seq<Msg>)
    ensures |r| == |outs|
    ensures forall i :: 0 <= i < |outs| ==> r[i] == outs[i].entry.msg
  {
    seq(|outs|, i requires 0 <= i < |outs| => outs[i].entry.msg)
  }

  /** The unordered tail of a batch: refresh, then pressure, while there is room. */
  function TakeTail(s: State, room: nat): (State, seq<Msg>) {
    var refresh := room > 0 && s.refresh;
    var left := if refresh then room - 1 else room;
    var pressure := left > 0 && s.pressure.Some?;
    (s.(refresh := s.refresh && !refresh, pressure := if pressure then None else s.pressure),
     (if refresh then [RefreshVideo] else []) + (if pressure then [VideoPressure(s.pressure.value)] else []))
  }

  /** The whole inbox: queue and slots, permission masks, phone gate and shutdown flag. */
  datatype Inbox = Inbox(
    state: State,
    known: Mask,
    enabled: Mask,
    gateInstalled: bool,
    gateReady: bool,
    epoch: nat,
    shutdown: bool)

  const FRESH := Inbox(FRESH_STATE, {}, {}, false, true, 0, false)

  predicate Leased(ib: Inbox, m: Msg) {
    ib.gateInstalled && RequiredPermission(m) == Some(KEYBOARD)
  }

  predicate Denied(ib: Inbox, m: Msg) {
    var p := RequiredPermission(m);
    p.Some? && p.value in ib.known && p.value !in ib.enabled
  }

  /** Whether the gates let a message reach the state. */
  predicate Passes(ib: Inbox, m: Msg) {
    !m.Shutdown? && (Leased(ib, m) ==> ib.gateReady) && !Denied(ib, m)
  }

  predicate Accepts(ib: Inbox, m: Msg) {
    m.Shutdown? || (Passes(ib, m) && Admits(ib.state, m))
  }

  function Enqueue(ib: Inbox, m: Msg): Inbox {
    Inbox(if Passes(ib, m) then Store(ib.state, m) else ib.state,
          ib.known, ib.enabled, ib.gateInstalled, ib.gateReady, ib.epoch, ib.shutdown || m.Shutdown?)
  }

  function UpdatePermission(ib: Inbox, mask: Mask, enable: bool): Inbox {
    Inbox(if mask == {} || enable then ib.state else DiscardProtected(ib.state, mask),
          ib.known + mask, if enable then ib.enabled + mask else ib.enabled - mask,
          ib.gateInstalled, ib.gateReady, ib.epoch, ib.shutdown)
  }

  function SetPhoneReady(ib: Inbox, ready: bool): Inbox {
    Inbox(if ready then ib.state else DiscardProtected(ib.state, {KEYBOARD}),
          ib.known, ib.enabled, true, ready,
          if ready then ib.epoch else (ib.epoch + 1) % (U64_MAX + 1), ib.shutdown)
  }

  function TakeBatch(s: State, limit: nat): (State, seq<Msg>) {
    var (drained, outs) := Drain(s, limit);
    var (final, tail) := TakeTail(drained, if |outs| <= limit then limit - |outs| else 0);
    (final, Messages(outs) + tail)
  }

  // ---------------------------------------------------------------- runs

  datatype Op = Put(msg: Msg) | Take(limit: nat) | Permit(mask: Mask, enable: bool) | Phone(ready: bool)

  function Step(ib: Inbox, op: Op): Inbox {
    match op
    case Put(m) => Enqueue(ib, m)
    case Take(limit) => ib.(state := TakeBatch(ib.state, limit).0)
    case Permit(mask, enable) => UpdatePermission(ib, mask, enable)
    case Phone(ready) => SetPhoneReady(ib, ready)
  }

  /** The ordered messages an operation emits. */
  function Emits(ib: Inbox, op: Op): seq<Out> {
    if op.Take? then Drain(ib.state, op.limit).1 else []
  }

  function Run(ops: seq<Op>): Inbox {
    if ops == [] then FRESH else Step(Run(ops[..|ops| - 1]), ops[|ops| - 1])
  }

  /** Everything a run emitted from the ordered domain, in order. */
  function Emitted(ops: seq<Op>): seq<Out> {
    if ops == [] then []
    else Emitted(ops[..|ops| - 1]) + Emits(Run(ops[..|ops| - 1]), ops[|ops| - 1])
  }

  /** A run extended by one operation. */
  lemma {:induction false} RunSnoc(ops: seq<Op>, op: Op)
    ensures Run(ops + [op]) == Step(Run(ops), op)
    ensures Emitted(ops + [op]) == Emitted(ops) + Emits(Run(ops), op)
  {
    assert (ops + [op])[..|ops + [op]| - 1] == ops;
  }
}

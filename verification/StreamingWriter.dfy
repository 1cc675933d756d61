/** The single-writer scheduler: a bounded control queue interleaved with counted acknowledgement credits. */
module StreamingWriter {
  import opened Prelude

  const CONTROL_CAPACITY: nat := 128
  const ACK_AFTER_CONTROLS: nat := 8

  datatype Next<T> = Control(item: T) | Ack(payload: T) | Wait | Stop

  datatype Admission = Admitted | Full | BrokenPipe | NotConnected | Overflow | Expired

  /** What a message's receipt says when it is asked: at the start of a pass, and right before the push. */
  datatype Token = NoReceipt | Receipt(atStart: bool, atPush: bool)

  predicate PendingAtStart(t: Token) {
    t.Receipt? ==> t.atStart
  }

  predicate PendingAtPush(t: Token) {
    t.Receipt? ==> t.atPush
  }

  /** The scheduler's state as a value. */
  datatype Writer<T> = Writer(
    control: seq<T>,
    ack: Option<T>,
    pending: nat,
    since: nat,
    closed: bool,
    failed: bool)

  function Idle<T>(): Writer<T> {
    Writer([], None, 0, 0, false, false)
  }

  function Bump(since: nat): nat {
    if since < U64_MAX then since + 1 else since
  }

  function TakeAck<T>(w: Writer<T>): Writer<T>
    requires w.pending > 0
  {
    w.(pending := w.pending - 1, since := 0, ack := if w.pending == 1 then None else w.ack)
  }

  function TakeNext<T>(w: Writer<T>): (Writer<T>, Next<T>) {
    if w.pending > 0 && w.since >= ACK_AFTER_CONTROLS then
      (if w.ack.Some? then (TakeAck(w), Ack(w.ack.value)) else (w, Stop))
    else if w.control != [] then
      (w.(control := w.control[1..], since := Bump(w.since)), Control(w.control[0]))
    else if w.pending > 0 then
      (if w.ack.Some? then (TakeAck(w), Ack(w.ack.value)) else (w, Stop))
    else if w.closed then (w, Stop)
    else (w, Wait)
  }

  function Refusal<T>(w: Writer<T>): Option<Admission> {
    if w.failed then Some(BrokenPipe) else if w.closed then Some(NotConnected) else None
  }

  function AdmitControl<T>(w: Writer<T>, item: T, token: Token): (Writer<T>, Admission) {
    if !PendingAtStart(token) then (w, Expired)
    else if Refusal(w).Some? then (w, Refusal(w).value)
    else if |w.control| >= CONTROL_CAPACITY then (w, Full)
    else if !PendingAtPush(token) then (w, Expired)
    else (w.(control := w.control + [item]), Admitted)
  }

  /** The payload is replaced even when the credit count would overflow. */
  function AdmitAck<T>(w: Writer<T>, payload: T): (Writer<T>, Admission) {
    if Refusal(w).Some? then (w, Refusal(w).value)
    else if w.pending == U64_MAX then (w.(ack := Some(payload)), Overflow)
    else (w.(ack := Some(payload), pending := w.pending + 1), Admitted)
  }

  function Fail<T>(w: Writer<T>): Writer<T> {
    w.(failed := true, closed := true, control := [])
  }

  function Close<T>(w: Writer<T>): Writer<T> {
    w.(closed := true)
  }

  /** The shared state of the writer thread; each method is one pass under its lock. */
  class Shared<T> {
    var control: seq<T>
    var ackPayload: Option<T>
    var pendingAcks: nat
    var controlsSinceAck: nat
    var closed: bool
    var failed: bool

    function View(): Writer<T>
      reads this
    {
      Writer(control, ackPayload, pendingAcks, controlsSinceAck, closed, failed)
    }

    constructor ()
      ensures View() == Idle<T>()
    {
      control, ackPayload, pendingAcks, controlsSinceAck, closed, failed := [], None, 0, 0, false, false;
    }

    /** take_ack: one credit, or nothing when there is no credit or no payload. */
    method PopAck() returns (payload: Option<T>)
      modifies this`pendingAcks, this`controlsSinceAck, this`ackPayload
      ensures if old(pendingAcks) > 0 && old(ackPayload).Some?
              then payload == old(ackPayload) && View() == TakeAck(old(View()))
              else payload.None? && View() == old(View())
    {
      if pendingAcks == 0 || ackPayload.None? {
        return None;
      }
      payload := ackPayload;
      pendingAcks := pendingAcks - 1;
      controlsSinceAck := 0;
      if pendingAcks == 0 {
        ackPayload := None;
      }
    }

    /** take_next, up to the point where it would sleep (`Wait`). */
    method Take() returns (next: Next<T>)
      modifies this
      ensures (View(), next) == TakeNext(old(View()))
    {
      if pendingAcks > 0 && controlsSinceAck >= ACK_AFTER_CONTROLS {
        var payload := PopAck();
        return if payload.Some? then Ack(payload.value) else Stop;
      }
      if control != [] {
        next := Control(control[0]);
        control := control[1..];
        controlsSinceAck := Bump(controlsSinceAck);
        return;
      }
      if pendingAcks > 0 {
        var payload := PopAck();
        return if payload.Some? then Ack(payload.value) else Stop;
      }
      next := if closed then Stop else Wait;
    }

    /** enqueue_control_with_receipt, one pass: up to the point where it would wait for room (`Full`). */
    method EnqueueControl(item: T, token: Token) returns (r: Admission)
      modifies this`control
      ensures (View(), r) == AdmitControl(old(View()), item, token)
    {
      if token.Receipt? && !token.atStart {
        return Expired;
      }
      if failed {
        return BrokenPipe;
      }
      if closed {
        return NotConnected;
      }
      if |control| < CONTROL_CAPACITY {
        if token.Receipt? && !token.atPush {
          return Expired;
        }
        control := control + [item];
        return Admitted;
      }
      r := Full;
    }

    method EnqueueAck(payload: T) returns (r: Admission)
      modifies this`ackPayload, this`pendingAcks
      ensures (View(), r) == AdmitAck(old(View()), payload)
    {
      if failed {
        return BrokenPipe;
      }
      if closed {
        return NotConnected;
      }
      ackPayload := Some(payload);
      if pendingAcks == U64_MAX {
        return Overflow;
      }
      pendingAcks := pendingAcks + 1;
      r := Admitted;
    }

    method SetError()
      modifies this`failed, this`closed, this`control
      ensures View() == Fail(old(View()))
    {
      failed := true;
      closed := true;
      control := [];
    }

    method Shutdown()
      modifies this`closed
      ensures View() == Close(old(View()))
    {
      closed := true;
    }
  }

  // ---------------------------------------------------------------- every interleaving

  /** What threads can do to the writer, in any order. */
  datatype Op<T> = PutControl(item: T, token: Token) | PutAck(payload: T) | Poll | Break | Drop

  function Step<T>(w: Writer<T>, op: Op<T>): Writer<T> {
    match op
    case PutControl(item, token) => AdmitControl(w, item, token).0
    case PutAck(payload) => AdmitAck(w, payload).0
    case Poll => TakeNext(w).0
    case Break => Fail(w)
    case Drop => Close(w)
  }

  function Run<T>(ops: seq<Op<T>>): Writer<T> {
    if ops == [] then Idle() else Step(Run(ops[..|ops| - 1]), ops[|ops| - 1])
  }

  /** What an operation hands to the socket, if anything. */
  function Handed<T>(w: Writer<T>, op: Op<T>): seq<Next<T>> {
    if op.Poll? && !TakeNext(w).1.Wait? && !TakeNext(w).1.Stop? then [TakeNext(w).1] else []
  }

  /** What the operations from `w` on hand to the socket. */
  function Taken<T>(w: Writer<T>, ops: seq<Op<T>>): seq<Next<T>>
    decreases |ops|
  {
    if ops == [] then [] else Handed(w, ops[0]) + Taken(Step(w, ops[0]), ops[1..])
  }

  /** The controls and the credits accepted from `w` on. */
  function Accepted<T>(w: Writer<T>, ops: seq<Op<T>>): (seq<T>, nat)
    decreases |ops|
  {
    if ops == [] then ([], 0)
    else
      var (items, credits) := Accepted(Step(w, ops[0]), ops[1..]);
      match ops[0]
      case PutControl(item, token) =>
        (if AdmitControl(w, item, token).1.Admitted? then ([item] + items, credits) else (items, credits))
      case PutAck(payload) => (items, if AdmitAck(w, payload).1.Admitted? then credits + 1 else credits)
      case _ => (items, credits)
  }

  function After<T>(w: Writer<T>, ops: seq<Op<T>>): Writer<T>
    decreases |ops|
  {
    if ops == [] then w else After(Step(w, ops[0]), ops[1..])
  }

  function Controls<T>(taken: seq<Next<T>>): seq<T> {
    if taken == [] then []
    else (if taken[0].Control? then [taken[0].item] else []) + Controls(taken[1..])
  }

  function Acks<T>(taken: seq<Next<T>>): nat {
    if taken == [] then 0 else (if taken[0].Ack? then 1 else 0) + Acks(taken[1..])
  }

  /** A payload is stored exactly while credits are pending, and the queue is bounded. */
  ghost predicate Sound<T>(w: Writer<T>) {
    && (w.ack.Some? <==> w.pending > 0)
    && w.pending <= U64_MAX && w.since <= U64_MAX
    && |w.control| <= CONTROL_CAPACITY
    && (w.failed ==> w.closed && w.control == [])
  }

  lemma {:induction false} StepSound<T>(w: Writer<T>, op: Op<T>)
    requires Sound(w)
    ensures Sound(Step(w, op))
  {
  }

  lemma {:induction false} RunSound<T>(ops: seq<Op<T>>)
    ensures Sound(Run(ops))
  {
    if ops != [] {
      RunSound(ops[..|ops| - 1]);
      StepSound(Run(ops[..|ops| - 1]), ops[|ops| - 1]);
    }
  }

  /** take_next ends the writer only when it is closed and has nothing left to write. */
  lemma {:induction false} StopsOnlyWhenDone<T>(w: Writer<T>)
    requires Sound(w)
    ensures TakeNext(w).1.Stop? <==> w.closed && w.control == [] && w.pending == 0
  {
  }

  lemma {:induction false} FirstAcks<T>(first: seq<Next<T>>, rest: seq<Next<T>>)
    requires |first| <= 1
    ensures Acks(first + rest) == Acks(first) + Acks(rest)
  {
    if first == [] {
      assert first + rest == rest;
    } else {
      assert (first + rest)[1..] == rest && first[1..] == [];
    }
  }

  /** One operation: the credits before it and those it accepts are those it hands out and those after it. */
  lemma {:induction false} StepCredits<T>(w: Writer<T>, op: Op<T>)
    requires Sound(w)
    ensures w.pending + (if op.PutAck? && AdmitAck(w, op.payload).1.Admitted? then 1 else 0)
         == Acks(Handed(w, op)) + Step(w, op).pending
  {
  }

  /** Credits are conserved: accepted = handed out + still pending. */
  lemma {:induction false} CreditsConserved<T>(w: Writer<T>, ops: seq<Op<T>>)
    requires Sound(w)
    ensures w.pending + Accepted(w, ops).1 == Acks(Taken(w, ops)) + After(w, ops).pending
    ensures Sound(After(w, ops))
    decreases |ops|
  {
    if ops != [] {
      var next, rest := Step(w, ops[0]), ops[1..];
      StepSound(w, ops[0]);
      StepCredits(w, ops[0]);
      CreditsConserved(next, rest);
      FirstAcks(Handed(w, ops[0]), Taken(next, rest));
      assert Accepted(w, ops).1 ==
             Accepted(next, rest).1 + (if ops[0].PutAck? && AdmitAck(w, ops[0].payload).1.Admitted? then 1 else 0);
    }
  }

  ghost predicate NeverBreaks<T>(ops: seq<Op<T>>) {
    forall i | 0 <= i < |ops| :: !ops[i].Break?
  }

  /** The control an operation hands to the socket, if any. */
  function TakenNow<T>(w: Writer<T>, op: Op<T>): seq<T> {
    if op.Poll? && TakeNext(w).1.Control? then [TakeNext(w).1.item] else []
  }

  function AcceptedNow<T>(w: Writer<T>, op: Op<T>): seq<T> {
    if op.PutControl? && AdmitControl(w, op.item, op.token).1.Admitted? then [op.item] else []
  }

  lemma {:induction false} StepControls<T>(w: Writer<T>, op: Op<T>)
    requires !op.Break?
    ensures w.control + AcceptedNow(w, op) == TakenNow(w, op) + Step(w, op).control
  {
  }

  lemma {:induction false} FirstHanded<T>(first: seq<Next<T>>, rest: seq<Next<T>>)
    requires |first| <= 1
    ensures Controls(first + rest) == Controls(first) + Controls(rest)
  {
    if first == [] {
      assert first + rest == rest;
    } else {
      assert (first + rest)[1..] == rest && first[1..] == [];
    }
  }

  lemma {:induction false} FirstControl<T>(w: Writer<T>, ops: seq<Op<T>>)
    requires ops != []
    ensures Controls(Taken(w, ops)) == TakenNow(w, ops[0]) + Controls(Taken(Step(w, ops[0]), ops[1..]))
    ensures Accepted(w, ops).0 == AcceptedNow(w, ops[0]) + Accepted(Step(w, ops[0]), ops[1..]).0
  {
    var rest := Taken(Step(w, ops[0]), ops[1..]);
    assert Taken(w, ops) == Handed(w, ops[0]) + rest;
    FirstHanded(Handed(w, ops[0]), rest);
    assert Controls(Handed(w, ops[0])) == TakenNow(w, ops[0]);
  }

  /** Without a write error, controls leave in the order they were accepted and none is lost. */
  lemma {:induction false} ControlsConserved<T>(w: Writer<T>, ops: seq<Op<T>>)
    requires NeverBreaks(ops)
    ensures w.control + Accepted(w, ops).0 == Controls(Taken(w, ops)) + After(w, ops).control
    decreases |ops|
  {
    if ops == [] {
      assert w.control + [] == [] + w.control;
    } else {
      var w1, rest := Step(w, ops[0]), ops[1..];
      var now, gone := AcceptedNow(w, ops[0]), TakenNow(w, ops[0]);
      StepControls(w, ops[0]);
      FirstControl(w, ops);
      ControlsConserved(w1, rest);
      Associate(w.control, now, Accepted(w1, rest).0);
      Associate(gone, w1.control, Accepted(w1, rest).0);
      Associate(gone, Controls(Taken(w1, rest)), After(w1, rest).control);
    }
  }

  /** With or without an error, what left is a prefix of what was accepted. */
  lemma {:induction false} ControlsInOrder<T>(w: Writer<T>, ops: seq<Op<T>>)
    requires Sound(w)
    ensures Controls(Taken(w, ops)) <= w.control + Accepted(w, ops).0
    decreases |ops|
  {
    if ops != [] {
      var w1, rest := Step(w, ops[0]), ops[1..];
      StepSound(w, ops[0]);
      FirstControl(w, ops);
      if ops[0].Break? {
        FailedTakesNothing(w1, rest);
      } else {
        StepControls(w, ops[0]);
        ControlsInOrder(w1, rest);
        Associate(w.control, AcceptedNow(w, ops[0]), Accepted(w1, rest).0);
        Associate(TakenNow(w, ops[0]), w1.control, Accepted(w1, rest).0);
      }
    }
  }

  lemma {:induction false} FailedTakesNothing<T>(w: Writer<T>, ops: seq<Op<T>>)
    requires Sound(w) && w.failed
    ensures Controls(Taken(w, ops)) == [] && Accepted(w, ops).0 == []
    decreases |ops|
  {
    if ops != [] {
      StepSound(w, ops[0]);
      FailedTakesNothing(Step(w, ops[0]), ops[1..]);
      FirstControl(w, ops);
    }
  }

  /** From any state with a credit pending, at most eight controls leave before an acknowledgement does. */
  lemma {:induction false} AckWithinEightControls<T>(w: Writer<T>, ops: seq<Op<T>>)
    requires Sound(w) && w.pending > 0
    requires Acks(Taken(w, ops)) == 0
    ensures |Controls(Taken(w, ops))| + (if w.since < ACK_AFTER_CONTROLS then w.since else ACK_AFTER_CONTROLS)
         <= ACK_AFTER_CONTROLS
    decreases |ops|
  {
    if ops != [] {
      var w1 := Step(w, ops[0]);
      StepSound(w, ops[0]);
      FirstControl(w, ops);
      if ops[0].Poll? {
        assert Taken(w, ops)[0] == TakeNext(w).1;
        assert Taken(w, ops)[1..] == Taken(w1, ops[1..]);
        assert TakeNext(w).1.Control?;
      } else {
        assert Taken(w, ops) == Taken(w1, ops[1..]);
      }
      AckWithinEightControls(w1, ops[1..]);
    }
  }

  /** While a credit is pending, the writer neither sleeps nor stops. */
  lemma {:induction false} PendingCreditKeepsBusy<T>(w: Writer<T>)
    requires Sound(w) && w.pending > 0
    ensures TakeNext(w).1.Control? || TakeNext(w).1 == Ack(w.ack.value)
  {
  }

  // ---------------------------------------------------------------- the schedule of a run

  /** Everything a run handed to the socket. */
  function Written<T>(ops: seq<Op<T>>): seq<Next<T>> {
    if ops == [] then []
    else Written(ops[..|ops| - 1]) + Handed(Run(ops[..|ops| - 1]), ops[|ops| - 1])
  }

  /** How many controls it ended with, one after the other. */
  function ControlsAtEnd<T>(taken: seq<Next<T>>): nat {
    if taken == [] || !taken[|taken| - 1].Control? then 0 else 1 + ControlsAtEnd(taken[..|taken| - 1])
  }

  lemma {:induction false} EndSnoc<T>(taken: seq<Next<T>>, more: Next<T>)
    ensures ControlsAtEnd(taken + [more]) == if more.Control? then 1 + ControlsAtEnd(taken) else 0
  {
    assert (taken + [more])[..|taken|] == taken;
  }

  function Capped(n: nat): nat {
    if n <= U64_MAX then n else U64_MAX
  }

  lemma {:induction false} SinceStep<T>(w: Writer<T>, op: Op<T>, taken: seq<Next<T>>)
    requires w.since == Capped(ControlsAtEnd(taken))
    ensures Step(w, op).since == Capped(ControlsAtEnd(taken + Handed(w, op)))
  {
    if Handed(w, op) == [] {
      assert taken + Handed(w, op) == taken;
    } else {
      EndSnoc(taken, TakeNext(w).1);
    }
  }

  lemma {:induction false} SinceFromOps<T>(ops: seq<Op<T>>)
    ensures Run(ops).since == Capped(ControlsAtEnd(Written(ops)))
  {
    if ops != [] {
      var before, op := ops[..|ops| - 1], ops[|ops| - 1];
      SinceFromOps(before);
      SinceStep(Run(before), op, Written(before));
    }
  }

  /**
   * Exactly who goes first when both wait: an acknowledgement if the last eight things written were controls, and else
   * the control that was accepted first.
   */
  lemma {:induction false} ScheduleExactly<T>(ops: seq<Op<T>>)
    requires Run(ops).pending > 0 && Run(ops).control != []
    ensures TakeNext(Run(ops)).1.Ack? <==> ControlsAtEnd(Written(ops)) >= 8
    ensures !TakeNext(Run(ops)).1.Ack? ==> TakeNext(Run(ops)).1 == Control(Run(ops).control[0])
  {
    RunSound(ops);
    SinceFromOps(ops);
  }

  predicate Broke<T>(ops: seq<Op<T>>) {
    exists i :: 0 <= i < |ops| && ops[i].Break?
  }

  /** Neither broken nor dropped. */
  predicate Open<T>(ops: seq<Op<T>>) {
    forall i | 0 <= i < |ops| :: !ops[i].Break? && !ops[i].Drop?
  }

  /** The writer is open until it breaks or is dropped. */
  lemma {:induction false} OpenFromOps<T>(ops: seq<Op<T>>)
    ensures Run(ops).failed <==> Broke(ops)
    ensures !Run(ops).closed <==> Open(ops)
  {
    if ops != [] {
      var before, op := ops[..|ops| - 1], ops[|ops| - 1];
      OpenFromOps(before);
      assert Broke(ops) <==> Broke(before) || op.Break?;
    }
  }

  /** Exactly when a control is accepted: its receipt is pending at both looks, the writer open, and a place free. */
  lemma {:induction false} AdmittedExactly<T>(ops: seq<Op<T>>, item: T, token: Token)
    ensures AdmitControl(Run(ops), item, token).1.Admitted? <==>
            && (token.Receipt? ==> token.atStart && token.atPush)
            && Open(ops) && |Run(ops).control| < 128
  {
    OpenFromOps(ops);
  }

  /**
   * Why anything is refused: a receipt settled at the first look comes first, then a write error, then the shutdown, then
   * the lack of room, and last a receipt settled in between; a refused control changes nothing.
   */
  lemma {:induction false} RefusedBecause<T>(ops: seq<Op<T>>, item: T, payload: T, token: Token)
    ensures var (after, answer) := AdmitControl(Run(ops), item, token);
            && (answer.Expired? <==>
                  token.Receipt? && (!token.atStart || (!token.atPush && Open(ops) && |Run(ops).control| < 128)))
            && (answer.BrokenPipe? <==> (token.Receipt? ==> token.atStart) && Broke(ops))
            && (answer.NotConnected? <==> (token.Receipt? ==> token.atStart) && !Broke(ops) && !Open(ops))
            && (answer.Full? <==> (token.Receipt? ==> token.atStart) && Open(ops) && |Run(ops).control| == 128)
            && (!answer.Admitted? ==> after == Run(ops))
    ensures var answer := AdmitAck(Run(ops), payload).1;
            && (answer.BrokenPipe? <==> Broke(ops)) && (answer.NotConnected? <==> !Broke(ops) && !Open(ops))
            && (answer.Overflow? <==> Open(ops) && Run(ops).pending == 0xffff_ffff_ffff_ffff)
            && (answer.Admitted? <==> Open(ops) && Run(ops).pending < 0xffff_ffff_ffff_ffff)
  {
    OpenFromOps(ops);
    RunSound(ops);
  }

  /** The last payload offered while the writer was open. */
  function LatestPayload<T>(ops: seq<Op<T>>): Option<T> {
    if ops == [] then None
    else
      var before, op := ops[..|ops| - 1], ops[|ops| - 1];
      if op.PutAck? && Open(before) then Some(op.payload) else LatestPayload(before)
  }

  /** Every acknowledgement carries the payload offered last, whichever credit it returns. */
  lemma {:induction false} AckCarriesLatest<T>(ops: seq<Op<T>>)
    ensures Run(ops).ack.Some? ==> Run(ops).ack == LatestPayload(ops)
    ensures TakeNext(Run(ops)).1.Ack? ==> Some(TakeNext(Run(ops)).1.payload) == LatestPayload(ops)
  {
    if ops != [] {
      AckCarriesLatest(ops[..|ops| - 1]);
      OpenFromOps(ops[..|ops| - 1]);
    }
  }
}

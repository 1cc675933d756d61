/** Permission revocation: what a denial removes, what it misses, and that nothing denied is emitted afterwards. */
module Revocation {
  import opened Prelude
  import opened ControlMessages
  import opened InboxModel
  import opened InboxOrder
  import opened InboxLedger

  predicate Needs(m: Msg, p: int) {
    RequiredPermission(m) == Some(p)
  }

  /** The state holds nothing that this permission protects. */
  ghost predicate Clear(s: State, p: int) {
    && (forall e :: e in s.reliable ==> !Needs(e.msg, p))
    && (p == KEYBOARD ==> s.mouseMove.None? && s.touch.None? && s.wheel.None?)
  }

  lemma {:induction false} SweepFrees(s: State, p: int)
    requires Typed(s)
    ensures Clear(DiscardProtected(s, {p}), p)
  {
    WithoutMembers(s.reliable, Protected({p}));
  }

  lemma {:induction false} StoreKeepsFree(s: State, m: Msg, p: int)
    requires Clear(s, p) && !Needs(m, p) && !m.Shutdown?
    ensures Clear(Store(s, m), p)
  {
    WithoutMembers(s.reliable, StaleDeltas);
    if Flushes(s, m) {
      FlushingStore(s, m);
      FlushKeepsFree(s, p);
    }
  }

  /** What a flush adds to the queue comes from the slots, and is pointer input. */
  lemma {:induction false} FlushKeepsFree(s: State, p: int)
    requires Clear(s, p)
    ensures forall e :: e in Flush(s).reliable ==> !Needs(e.msg, p)
  {
    forall e | e in Flushed(s) ensures Needs(e.msg, KEYBOARD) && (s.touch.Some? || s.wheel.Some?) {
    }
  }

  lemma {:induction false} DiscardKeepsFree(s: State, mask: Mask, p: int)
    requires Clear(s, p)
    ensures Clear(DiscardProtected(s, mask), p)
  {
    WithoutMembers(s.reliable, Protected(mask));
  }

  lemma {:induction false} PopFree(s: State, p: int)
    requires Clear(s, p) && Typed(s) && NextPending(s).Some?
    ensures Clear(PopOne(s).0, p) && Typed(PopOne(s).0) && !Needs(PopOne(s).1.entry.msg, p)
  {
    match NextPending(s).value.1
    case Reliable =>
      assert s.reliable[0] in s.reliable;
      assert PopOne(s).0 == PopQueue(s);
    case Touch =>
      assert PopOne(s) == PopTouch(s);
    case Mouse =>
    case Wheel =>
    case Display =>
  }

  lemma {:induction false} DrainFree(s: State, n: nat, p: int)
    requires Clear(s, p) && Typed(s)
    ensures Clear(Drain(s, n).0, p) && Typed(Drain(s, n).0)
    ensures forall o :: o in Drain(s, n).1 ==> !Needs(o.entry.msg, p)
    decreases n
  {
    if n > 0 && NextPending(s).Some? {
      PopFree(s, p);
      DrainFree(PopOne(s).0, n - 1, p);
    }
  }

  /** From an inbox without such content a batch takes none. */
  lemma {:induction false} TakeFree(s: State, limit: nat, p: int)
    requires Typed(s)
    ensures Typed(TakeBatch(s, limit).0)
    ensures Clear(s, p) ==> Clear(TakeBatch(s, limit).0, p)
    ensures Clear(s, p) ==> forall m :: m in TakeBatch(s, limit).1 ==> !Needs(m, p)
  {
    DrainConserves(s, limit, PanX);
    TailKeepsHeld(Drain(s, limit).0, PanX);
    if Clear(s, p) {
      DrainFree(s, limit, p);
      var outs := Drain(s, limit).1;
      forall m | m in Messages(outs) ensures !Needs(m, p) {
        var i :| 0 <= i < |outs| && Messages(outs)[i] == m;
        assert outs[i] in outs;
      }
    }
  }

  // ---------------------------------------------------------------- after a denial

  /** The peer denied this permission and nothing it protects is pending. */
  ghost predicate Shut(ib: Inbox, p: int) {
    Typed(ib.state) && p in ib.known && p !in ib.enabled && Clear(ib.state, p)
  }

  /** A denial of one permission takes effect at once, on what is queued and on what will be enqueued. */
  lemma {:induction false} DenialShuts(ib: Inbox, p: int)
    requires Typed(ib.state)
    ensures Shut(UpdatePermission(ib, {p}, false), p)
  {
    SweepFrees(ib.state, p);
  }

  predicate Reopens(op: Op, p: int) {
    op.Permit? && op.enable && p in op.mask
  }

  lemma {:induction false} StepStaysShut(ib: Inbox, op: Op, p: int)
    requires Shut(ib, p) && !Reopens(op, p)
    ensures Shut(Step(ib, op), p)
    ensures forall o :: o in Emits(ib, op) ==> !Needs(o.entry.msg, p)
  {
    match op
    case Put(m) =>
      if Passes(ib, m) {
        StoreKeepsFree(ib.state, m, p);
        StoreTyped(ib.state, m);
      }
    case Take(limit) =>
      TakeFree(ib.state, limit, p);
      DrainFree(ib.state, limit, p);
    case Permit(mask, enable) =>
      if mask != {} && !enable {
        DiscardKeepsFree(ib.state, mask, p);
      }
    case Phone(ready) =>
      if !ready {
        DiscardKeepsFree(ib.state, {KEYBOARD}, p);
      }
  }

  /** The state after more operations, and what they emit. */
  function Continue(ib: Inbox, ops: seq<Op>): Inbox
    decreases |ops|
  {
    if ops == [] then ib else Continue(Step(ib, ops[0]), ops[1..])
  }

  function EmittedFrom(ib: Inbox, ops: seq<Op>): seq<Out>
    decreases |ops|
  {
    if ops == [] then [] else Emits(ib, ops[0]) + EmittedFrom(Step(ib, ops[0]), ops[1..])
  }

  /** From a denial until the permission returns, no message it protects is accepted, kept or emitted. */
  lemma {:induction false} NothingDeniedEmitted(ib: Inbox, ops: seq<Op>, p: int)
    requires Shut(ib, p) && forall op :: op in ops ==> !Reopens(op, p)
    ensures Shut(Continue(ib, ops), p)
    ensures forall o :: o in EmittedFrom(ib, ops) ==> !Needs(o.entry.msg, p)
    ensures forall m :: Needs(m, p) ==> !Accepts(Continue(ib, ops), m)
    decreases |ops|
  {
    if ops != [] {
      StepStaysShut(ib, ops[0], p);
      NothingDeniedEmitted(Step(ib, ops[0]), ops[1..], p);
    }
  }

  // ---------------------------------------------------------------- denials of several permissions at once

  /** The mask is this one permission bit. */
  predicate Names(mask: Mask, p: int) {
    mask == {p}
  }

  ghost predicate NamesOne(mask: Mask) {
    exists p :: Names(mask, p)
  }

  lemma {:induction false} NamesNone(mask: Mask)
    requires !NamesOne(mask)
    ensures mask != {KEYBOARD} && mask != {CLIPBOARD} && mask != {FILE}
  {
    assert !Names(mask, KEYBOARD) && !Names(mask, CLIPBOARD) && !Names(mask, FILE);
  }

  lemma {:induction false} WithoutNone(q: seq<Queued>, mask: Mask)
    requires !NamesOne(mask)
    ensures Without(q, Protected(mask)) == q
  {
    if q != [] {
      WithoutNone(q[1..], mask);
      NamesNone(mask);
      assert q == [q[0]] + q[1..];
    }
  }

  /** A denial of several permissions at once removes nothing that is queued. */
  lemma {:induction false} CombinedDenialRemovesNothing(s: State, mask: Mask)
    requires !NamesOne(mask)
    ensures DiscardProtected(s, mask) == s
  {
    WithoutNone(s.reliable, mask);
    NamesNone(mask);
  }

  /** Exactly when a denial leaves nothing it protects queued: it names one permission, or nothing was queued. */
  lemma {:induction false} DenialClearsExactly(ib: Inbox, mask: Mask)
    requires Typed(ib.state) && mask != {}
    ensures (forall p :: p in mask ==> Clear(UpdatePermission(ib, mask, false).state, p))
            <==> NamesOne(mask) || (forall p :: p in mask ==> Clear(ib.state, p))
  {
    if NamesOne(mask) {
      var p :| Names(mask, p);
      SweepFrees(ib.state, p);
    } else {
      CombinedDenialRemovesNothing(ib.state, mask);
    }
  }
}

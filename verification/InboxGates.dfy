/** What the inbox accepts, and under which number, from the operations of a run alone. */
module InboxGates {
  import opened Prelude
  import opened ControlMessages
  import opened InboxModel
  import opened InboxOrder
  import opened TouchGrammar

  /** The last permission update that named it was a denial. */
  predicate DeniedNow(ops: seq<Op>, p: int) {
    ops != [] &&
    var before, op := ops[..|ops| - 1], ops[|ops| - 1];
    if op.Permit? && p in op.mask then !op.enable else DeniedNow(before, p)
  }

  /** The phone gate was never installed, or last set ready. */
  predicate GateOpen(ops: seq<Op>) {
    ops == [] ||
    var before, op := ops[..|ops| - 1], ops[|ops| - 1];
    if op.Phone? then op.ready else GateOpen(before)
  }

  /** Keyboard, pointer and touch input. */
  predicate Input(m: Msg) {
    || m.KeyEvent? || m.Text? || m.AndroidPhone? || m.MouseEvent? || m.MouseMove? || m.MouseWheel? || m.MouseWheel2D?
    || m.TouchScale? || m.TouchPanStart? || m.TouchPanUpdate? || m.TouchPanEnd?
  }

  /** Whether a message offered after these operations passes the gates: input, clipboard contents, and files. */
  predicate Lets(ops: seq<Op>, m: Msg) {
    && !m.Shutdown?
    && (Input(m) ==> !DeniedNow(ops, KEYBOARD) && GateOpen(ops))
    && (m.Clipboard? || m.ClipboardTracked? ==> !DeniedNow(ops, CLIPBOARD))
    && (m.SendFile? ==> !DeniedNow(ops, FILE))
  }

  /** The number the next message gets: one more for every message let through, up to the last u64. */
  function Ticket(ops: seq<Op>): nat {
    if ops == [] then 1
    else
      var before, op := ops[..|ops| - 1], ops[|ops| - 1];
      if op.Put? && Lets(before, op.msg) && Ticket(before) < U64_MAX then Ticket(before) + 1 else Ticket(before)
  }

  /** Whether this operation takes gesture input away: a denial of the keyboard, or a phone close. */
  predicate EndsGestures(op: Op) {
    (op.Permit? && op.mask == {KEYBOARD} && !op.enable) || (op.Phone? && !op.ready)
  }

  /** Where the gesture stands that the operations left open, scale messages below zero apart. */
  function GestureAt(ops: seq<Op>): Phase {
    if ops == [] then Closed
    else
      var before, op := GestureAt(ops[..|ops| - 1]), ops[|ops| - 1];
      if EndsGestures(op) then Closed
      else if op.Put? && TouchKind(op.msg) && !Negative(op.msg) && Lets(ops[..|ops| - 1], op.msg)
              && Advance(before, op.msg) != Broken then Advance(before, op.msg)
      else before
  }

  predicate Negative(m: Msg) {
    m.TouchScale? && m.scale < 0
  }

  /** A wheel message moves, a touch message has its place in the gesture or is a negative scale. */
  predicate InPlace(ops: seq<Op>, m: Msg) {
    if m.MouseWheel2D? then m.x != 0 || m.y != 0
    else TouchKind(m) ==> Negative(m) || Advance(GestureAt(ops), m) != Broken
  }

  // ---------------------------------------------------------------- gates and numbers

  /** Gates, shutdown flag and numbers are what the operations alone say. */
  lemma {:induction false} GatesFromOps(ops: seq<Op>)
    ensures var ib := Run(ops);
            && (forall p :: p in ib.known && p !in ib.enabled <==> DeniedNow(ops, p))
            && (ib.gateInstalled ==> (ib.gateReady <==> GateOpen(ops))) && (!ib.gateInstalled ==> GateOpen(ops))
            && (ib.shutdown <==> Put(Shutdown) in ops)
  {
    if ops != [] {
      var before, op := ops[..|ops| - 1], ops[|ops| - 1];
      GatesFromOps(before);
      assert ops == before + [op];
    }
  }

  lemma {:induction false} PassesFromOps(ops: seq<Op>, m: Msg)
    ensures Passes(Run(ops), m) <==> Lets(ops, m)
  {
    GatesFromOps(ops);
  }

  lemma {:induction false} DrainKeepsNumber(s: State, n: nat)
    ensures Drain(s, n).0.next == s.next && Drain(s, n).0.refresh == s.refresh && Drain(s, n).0.pressure == s.pressure
    decreases n
  {
    if n > 0 && NextPending(s).Some? {
      DrainKeepsNumber(PopOne(s).0, n - 1);
    }
  }

  lemma {:induction false} StoreNumber(s: State, m: Msg)
    ensures Store(s, m).next == NextSequence(s.next)
  {
  }

  lemma {:induction false} NumbersFromOps(ops: seq<Op>)
    ensures Run(ops).state.next == Ticket(ops)
  {
    if ops != [] {
      var before, op := ops[..|ops| - 1], ops[|ops| - 1];
      NumbersFromOps(before);
      match op
      case Put(m) =>
        PassesFromOps(before, m);
        if Passes(Run(before), m) {
          StoreNumber(Run(before).state, m);
        }
      case Take(limit) => DrainKeepsNumber(Run(before).state, limit);
      case _ =>
    }
  }

  // ---------------------------------------------------------------- acceptance

  lemma {:induction false} NegativeKeepsFlags(s: State, m: Msg)
    requires Negative(m)
    ensures FlagPhase(Store(s, m).gesture) == FlagPhase(s.gesture)
  {
  }

  /** The flags of the inbox stand where the gesture does. */
  lemma {:induction false} FlagsFromOps(ops: seq<Op>)
    ensures FlagPhase(Run(ops).state.gesture) == GestureAt(ops) && GestureAt(ops) != Broken
  {
    if ops != [] {
      var before, op := ops[..|ops| - 1], ops[|ops| - 1];
      FlagsFromOps(before);
      match op
      case Put(m) => PutFlags(before, m);
      case Take(limit) => DrainKeepsFlags(Run(before).state, limit);
      case _ =>
    }
  }

  lemma {:induction false} PutFlags(before: seq<Op>, m: Msg)
    requires FlagPhase(Run(before).state.gesture) == GestureAt(before) && GestureAt(before) != Broken
    ensures FlagPhase(Enqueue(Run(before), m).state.gesture) ==
            if TouchKind(m) && !Negative(m) && Lets(before, m) && Advance(GestureAt(before), m) != Broken
            then Advance(GestureAt(before), m) else GestureAt(before)
  {
    PassesFromOps(before, m);
    if Passes(Run(before), m) {
      if Negative(m) {
        NegativeKeepsFlags(Run(before).state, m);
      } else {
        StoreFlags(Run(before).state, m);
        if TouchKind(m) {
          AdmitsFlags(Run(before).state, m);
        }
      }
    }
  }

  /** The flags admit exactly the touch messages that their phase allows. */
  lemma {:induction false} AdmitsFlags(s: State, m: Msg)
    requires FlagPhase(s.gesture) != Broken && TouchKind(m) && !Negative(m)
    ensures Admits(s, m) <==> Advance(FlagPhase(s.gesture), m) != Broken
  {
  }

  /**
   * Exactly which messages a run accepts next: a shutdown always; any other if the gates let it through, a wheel message
   * if it moves, and a touch message if it has its place in the gesture or is a negative scale.
   */
  lemma {:induction false} AcceptsExactly(ops: seq<Op>, m: Msg)
    ensures Accepts(Run(ops), m) <==> m.Shutdown? || (Lets(ops, m) && InPlace(ops, m))
  {
    PassesFromOps(ops, m);
    FlagsFromOps(ops);
    if TouchKind(m) && !Negative(m) {
      AdmitsFlags(Run(ops).state, m);
    }
  }
}

/**
 * The latest-value slots: mouse moves, display switches, refreshes and pressure levels, against a reference that knows
 * only the operations of a run and what its batches returned.
 */
module InboxSlots {
  import opened Prelude
  import opened ControlMessages
  import opened InboxModel
  import opened InboxOrder
  import opened InboxLedger
  import opened InboxGates

  datatype Kind = Moves | Switches | Refreshes | Pressures

  predicate Of(k: Kind, m: Msg) {
    match k
    case Moves => m.MouseMove?
    case Switches => m.DisplaySwitch?
    case Refreshes => m.RefreshVideo?
    case Pressures => m.VideoPressure?
  }

  function Select(k: Kind, msgs: seq<Msg>): seq<Msg> {
    if msgs == [] then []
    else (if Of(k, msgs[0]) then [msgs[0]] else []) + Select(k, msgs[1..])
  }

  // ---------------------------------------------------------------- the reference

  /** What a batch after these operations returns. */
  function Batch(ops: seq<Op>, limit: nat): seq<Msg> {
    TakeBatch(Run(ops).state, limit).1
  }

  /** Operation i offered a message of the kind and it was let through. */
  predicate Brings(ops: seq<Op>, i: nat, k: Kind)
    requires i < |ops|
  {
    ops[i].Put? && Of(k, ops[i].msg) && Lets(ops[..i], ops[i].msg)
  }

  /** Operation i discarded what waited: for mouse moves a display switch, a denial of the keyboard or a phone close. */
  predicate Discards(ops: seq<Op>, i: nat, k: Kind)
    requires i < |ops|
  {
    k.Moves? &&
    match ops[i]
    case Put(m) => m.DisplaySwitch?
    case Permit(mask, enable) => mask == {KEYBOARD} && !enable
    case Phone(ready) => !ready
    case Take(_) => false
  }

  /** Operation i was a batch that returned a message of the kind. */
  predicate Emits(ops: seq<Op>, i: nat, k: Kind)
    requires i < |ops|
  {
    ops[i].Take? && Select(k, Batch(ops[..i], ops[i].limit)) != []
  }

  /** The last message of the kind that was let through and has since been neither emitted nor discarded. */
  function Latest(ops: seq<Op>, k: Kind): Option<Queued> {
    if ops == [] then None
    else
      var last, before := |ops| - 1, ops[..|ops| - 1];
      if Brings(ops, last, k) then Some(Queued(Ticket(before), ops[last].msg))
      else if Discards(ops, last, k) || Emits(ops, last, k) then None
      else Latest(before, k)
  }

  /** Message i still waits: it was let through, and since then nothing replaced, discarded or emitted it. */
  ghost predicate Waits(ops: seq<Op>, i: nat, k: Kind) {
    && i < |ops| && Brings(ops, i, k)
    && forall j | i < j < |ops| :: !Brings(ops, j, k) && !Discards(ops, j, k) && !Emits(ops, j, k)
  }

  lemma {:induction false} PrefixAgrees(ops: seq<Op>, n: nat, j: nat, k: Kind)
    requires j < n <= |ops|
    ensures Brings(ops[..n], j, k) == Brings(ops, j, k) && Discards(ops[..n], j, k) == Discards(ops, j, k)
    ensures Emits(ops[..n], j, k) == Emits(ops, j, k)
  {
    assert ops[..n][..j] == ops[..j];
  }

  lemma {:induction false} WaitsBefore(ops: seq<Op>, i: nat, k: Kind)
    requires ops != []
    ensures Waits(ops, i, k) <==>
            if i == |ops| - 1 then Brings(ops, i, k)
            else
              && Waits(ops[..|ops| - 1], i, k) && !Brings(ops, |ops| - 1, k)
              && !Discards(ops, |ops| - 1, k) && !Emits(ops, |ops| - 1, k)
  {
    var n := |ops| - 1;
    if i < n {
      PrefixAgrees(ops, n, i, k);
      forall j | i < j < n
        ensures Brings(ops[..n], j, k) == Brings(ops, j, k) && Discards(ops[..n], j, k) == Discards(ops, j, k)
        ensures Emits(ops[..n], j, k) == Emits(ops, j, k)
      {
        PrefixAgrees(ops, n, j, k);
      }
    }
  }

  /** The recursive reference and the statement in terms of positions agree. */
  lemma {:induction false} LatestExactly(ops: seq<Op>, k: Kind)
    ensures Latest(ops, k).None? ==> forall i: nat :: !Waits(ops, i, k)
    ensures Latest(ops, k).Some? ==>
              exists i: nat :: Waits(ops, i, k) && Latest(ops, k) == Some(Queued(Ticket(ops[..i]), ops[i].msg))
  {
    if ops != [] {
      var n, before := |ops| - 1, ops[..|ops| - 1];
      LatestExactly(before, k);
      forall i: nat ensures Waits(ops, i, k) <==>
                       if i == n then Brings(ops, i, k)
                       else Waits(before, i, k) && !Brings(ops, n, k) && !Discards(ops, n, k) && !Emits(ops, n, k)
      {
        WaitsBefore(ops, i, k);
      }
      if Brings(ops, n, k) {
        assert Waits(ops, n, k);
      } else if Latest(ops, k).Some? {
        var i: nat :| Waits(before, i, k) && Latest(before, k) == Some(Queued(Ticket(before[..i]), before[i].msg));
        assert before[..i] == ops[..i] && before[i] == ops[i];
        assert Waits(ops, i, k);
      }
    }
  }

  // ---------------------------------------------------------------- one operation on the slots

  predicate Coalesced(m: Msg) {
    m.MouseMove? || m.DisplaySwitch? || m.RefreshVideo? || m.VideoPressure?
  }

  /** No message of these kinds is in the queue, and the slots hold their own kinds. */
  ghost predicate Apart(s: State) {
    Typed(s) && forall e :: e in s.reliable ==> !Coalesced(e.msg)
  }

  /** The slot of the kind holds exactly this. */
  predicate Holds(s: State, k: Kind, latest: Option<Queued>) {
    && (latest.Some? ==> Of(k, latest.value.msg))
    && match k
       case Moves => s.mouseMove == latest
       case Switches => s.displaySwitch == latest
       case Refreshes => s.refresh <==> latest.Some?
       case Pressures => s.pressure == if latest.Some? then Some(latest.value.msg.level) else None
  }

  lemma {:induction false} StoreSlot(s: State, m: Msg, k: Kind, latest: Option<Queued>)
    requires Holds(s, k, latest) && !m.Shutdown?
    ensures Holds(Store(s, m), k,
                  if Of(k, m) then Some(Queued(s.next, m))
                  else if k.Moves? && m.DisplaySwitch? then None else latest)
  {
    if Flushes(s, m) {
      FlushingStore(s, m);
      assert Store(s, m).refresh == s.refresh && Store(s, m).pressure == s.pressure;
    }
  }

  lemma {:induction false} FlushedApart(s: State)
    ensures forall e :: e in Flushed(s) ==> !Coalesced(e.msg)
  {
  }

  lemma {:induction false} StoreApart(s: State, m: Msg)
    requires Apart(s) && !m.Shutdown?
    ensures Apart(Store(s, m))
  {
    StoreTyped(s, m);
    if Flushes(s, m) {
      FlushingStore(s, m);
      FlushedApart(s);
    } else if m.DisplaySwitch? {
      WithoutMembers(s.reliable, StaleDeltas);
    } else if m.TouchPanStart? {
      assert Store(s, m).reliable == s.reliable + [Queued(s.next, m)];
    } else {
      assert Store(s, m).reliable == s.reliable;
    }
  }

  lemma {:induction false} DiscardApart(s: State, mask: Mask)
    requires Apart(s)
    ensures Apart(DiscardProtected(s, mask))
  {
    WithoutMembers(s.reliable, Protected(mask));
  }

  lemma {:induction false} DiscardSlot(s: State, mask: Mask, k: Kind, latest: Option<Queued>)
    requires Holds(s, k, latest)
    ensures Holds(DiscardProtected(s, mask), k, if k.Moves? && mask == {KEYBOARD} then None else latest)
  {
  }

  // ---------------------------------------------------------------- one batch

  /** What remains in the slot after a batch that returned these messages of its kind. */
  function After(latest: Option<Queued>, out: seq<Msg>): Option<Queued> {
    if out == [] then latest else None
  }

  /** Nothing, or exactly the one message that waited. */
  predicate AtMostIt(latest: Option<Queued>, out: seq<Msg>) {
    out == [] || (latest.Some? && out == [latest.value.msg])
  }

  lemma {:induction false} PopSlot(s: State, k: Kind, latest: Option<Queued>)
    requires Apart(s) && NextPending(s).Some? && Holds(s, k, latest)
    ensures var (s1, out) := PopOne(s);
            && Apart(s1)
            && (Of(k, out.entry.msg) ==> latest == Some(out.entry) && (k.Moves? || k.Switches?))
            && Holds(s1, k, if Of(k, out.entry.msg) then None else latest)
  {
    match NextPending(s).value.1
    case Reliable =>
      assert PopOne(s) == (PopQueue(s), Out(Reliable, s.reliable[0]));
      assert s.reliable[0] in s.reliable;
    case Touch => assert PopOne(s) == PopTouch(s);
    case Mouse =>
    case Wheel =>
    case Display =>
  }

  lemma {:induction false} MessagesCons(out: Out, rest: seq<Out>)
    ensures Messages([out] + rest) == [out.entry.msg] + Messages(rest)
  {
  }

  lemma {:induction false} SelectCons(k: Kind, m: Msg, rest: seq<Msg>)
    ensures Select(k, [m] + rest) == (if Of(k, m) then [m] else []) + Select(k, rest)
  {
    assert ([m] + rest)[1..] == rest;
  }

  lemma {:induction false} SelectConcat(k: Kind, a: seq<Msg>, b: seq<Msg>)
    ensures Select(k, a + b) == Select(k, a) + Select(k, b)
  {
    if a == [] {
      assert a + b == b;
    } else {
      assert (a + b)[1..] == a[1..] + b;
      SelectConcat(k, a[1..], b);
    }
  }

  /** The ordered part of a batch brings moves and switches, and all of them once it takes everything. */
  lemma {:induction false} DrainSlot(s: State, n: nat, k: Kind, latest: Option<Queued>)
    requires Apart(s) && Holds(s, k, latest)
    ensures var (after, outs) := Drain(s, n);
            var out := Select(k, Messages(outs));
            && Apart(after) && AtMostIt(latest, out) && Holds(after, k, After(latest, out))
            && (out != [] ==> k.Moves? || k.Switches?)
            && ((k.Moves? || k.Switches?) && n >= PendingCount(s) && latest.Some? ==> out != [])
    decreases n
  {
    var (after, outs) := Drain(s, n);
    if n == 0 || NextPending(s).None? {
      assert Messages(outs) == [];
    } else {
      var (s1, out) := PopOne(s);
      var rest := Drain(s1, n - 1).1;
      PopSlot(s, k, latest);
      PopCounts(s);
      var left := if Of(k, out.entry.msg) then None else latest;
      DrainSlot(s1, n - 1, k, left);
      assert outs == [out] + rest;
      MessagesCons(out, rest);
      SelectCons(k, out.entry.msg, Messages(rest));
    }
  }

  lemma {:induction false} DrainCounts(s: State, n: nat)
    ensures |Drain(s, n).1| == if n <= PendingCount(s) then n else PendingCount(s)
    decreases n
  {
    if n > 0 && NextPending(s).Some? {
      PopCounts(s);
      DrainCounts(PopOne(s).0, n - 1);
    }
  }

  lemma {:induction false} SelectPair(k: Kind, refresh: bool, pressure: Option<nat>)
    ensures Select(k, (if refresh then [RefreshVideo] else [])
                      + (if pressure.Some? then [VideoPressure(pressure.value)] else []))
         == match k
            case Refreshes => if refresh then [RefreshVideo] else []
            case Pressures => if pressure.Some? then [VideoPressure(pressure.value)] else []
            case _ => []
  {
    var a: seq<Msg> := if refresh then [RefreshVideo] else [];
    var b: seq<Msg> := if pressure.Some? then [VideoPressure(pressure.value)] else [];
    SelectConcat(k, a, b);
    assert refresh ==> a[1..] == [];
    assert pressure.Some? ==> b[1..] == [];
  }

  lemma {:induction false} TailSlot(s: State, room: nat, k: Kind, latest: Option<Queued>)
    requires Holds(s, k, latest)
    ensures var (after, tail) := TakeTail(s, room);
            var out := Select(k, tail);
            && AtMostIt(latest, out) && Holds(after, k, After(latest, out))
            && (k.Refreshes? ==> (out != [] <==> latest.Some? && room > 0))
            && (k.Pressures? ==> (out != [] <==> latest.Some? && room > if s.refresh then 1 else 0))
            && (k.Moves? || k.Switches? ==> out == [])
  {
    var refresh := room > 0 && s.refresh;
    var left := if refresh then room - 1 else room;
    SelectPair(k, refresh, if left > 0 then s.pressure else None);
  }

  /** Room enough in a batch for what waits of the kind. */
  predicate Reached(s: State, k: Kind, limit: nat) {
    match k
    case Refreshes => limit > PendingCount(s)
    case Pressures => limit > PendingCount(s) + (if s.refresh then 1 else 0)
    case _ => limit >= PendingCount(s)
  }

  lemma {:induction false} BatchSlot(s: State, limit: nat, k: Kind, latest: Option<Queued>)
    requires Apart(s) && Holds(s, k, latest)
    ensures var (after, batch) := TakeBatch(s, limit);
            var out := Select(k, batch);
            && Apart(after) && AtMostIt(latest, out) && Holds(after, k, After(latest, out))
            && (latest.Some? && Reached(s, k, limit) ==> out != [])
            && (k.Refreshes? || k.Pressures? ==> (out != [] ==> Reached(s, k, limit)))
  {
    var (drained, outs) := Drain(s, limit);
    DrainSlot(s, limit, k, latest);
    DrainCounts(s, limit);
    DrainKeepsNumber(s, limit);
    var ordered := Select(k, Messages(outs));
    var room := limit - |outs|;
    TailSlot(drained, room, k, After(latest, ordered));
    SelectConcat(k, Messages(outs), TakeTail(drained, room).1);
  }

  // ---------------------------------------------------------------- every run

  lemma {:induction false} PutSlot(ib: Inbox, m: Msg, k: Kind, latest: Option<Queued>)
    requires Apart(ib.state) && Holds(ib.state, k, latest)
    ensures Apart(Enqueue(ib, m).state)
    ensures Holds(Enqueue(ib, m).state, k,
                  if !Passes(ib, m) then latest
                  else if Of(k, m) then Some(Queued(ib.state.next, m))
                  else if k.Moves? && m.DisplaySwitch? then None else latest)
  {
    if Passes(ib, m) {
      StoreSlot(ib.state, m, k, latest);
      StoreApart(ib.state, m);
    }
  }

  /** What one operation makes of the reference. */
  lemma {:induction false} LatestStep(before: seq<Op>, op: Op, k: Kind)
    ensures Latest(before + [op], k) ==
            match op
            case Put(m) =>
              if Of(k, m) && Lets(before, m) then Some(Queued(Ticket(before), m))
              else if k.Moves? && m.DisplaySwitch? then None else Latest(before, k)
            case Take(limit) => After(Latest(before, k), Select(k, Batch(before, limit)))
            case Permit(mask, enable) => if k.Moves? && mask == {KEYBOARD} && !enable then None else Latest(before, k)
            case Phone(ready) => if k.Moves? && !ready then None else Latest(before, k)
  {
    var ops := before + [op];
    assert ops[..|ops| - 1] == before;
  }

  lemma {:induction false} StepSlot(before: seq<Op>, op: Op, k: Kind)
    requires Apart(Run(before).state) && Holds(Run(before).state, k, Latest(before, k))
    ensures Apart(Step(Run(before), op).state)
    ensures Holds(Step(Run(before), op).state, k, Latest(before + [op], k))
  {
    var ib, latest := Run(before), Latest(before, k);
    LatestStep(before, op, k);
    match op
    case Put(m) =>
      PassesFromOps(before, m);
      NumbersFromOps(before);
      PutSlot(ib, m, k, latest);
    case Take(limit) => BatchSlot(ib.state, limit, k, latest);
    case Permit(mask, enable) =>
      DiscardSlot(ib.state, mask, k, latest);
      DiscardApart(ib.state, mask);
    case Phone(ready) =>
      DiscardSlot(ib.state, {KEYBOARD}, k, latest);
      DiscardApart(ib.state, {KEYBOARD});
  }

  /**
   * Over every run each of the four slots holds exactly the last message of its kind that was let through and has
   * since been neither emitted nor discarded, under the number it was given on arrival.
   */
  lemma {:induction false} SlotsHoldLatest(ops: seq<Op>, k: Kind)
    ensures Apart(Run(ops).state) && Holds(Run(ops).state, k, Latest(ops, k))
  {
    if ops != [] {
      var before, op := ops[..|ops| - 1], ops[|ops| - 1];
      SlotsHoldLatest(before, k);
      StepSlot(before, op, k);
      assert before + [op] == ops;
    }
  }

  /**
   * What a batch returns of a kind is nothing or exactly that message, and it is that message once the batch has
   * room for what is pending before it.
   */
  lemma {:induction false} BatchBringsLatest(ops: seq<Op>, limit: nat, k: Kind)
    ensures AtMostIt(Latest(ops, k), Select(k, Batch(ops, limit)))
    ensures Latest(ops, k).Some? && Reached(Run(ops).state, k, limit) ==>
              Select(k, Batch(ops, limit)) == [Latest(ops, k).value.msg]
  {
    SlotsHoldLatest(ops, k);
    BatchSlot(Run(ops).state, limit, k, Latest(ops, k));
  }

  /** The unordered end of a batch: a refresh, a pressure level, or both in this order. */
  predicate IsTail(msgs: seq<Msg>) {
    || msgs == [] || (|msgs| == 1 && (msgs[0].RefreshVideo? || msgs[0].VideoPressure?))
    || (|msgs| == 2 && msgs[0].RefreshVideo? && msgs[1].VideoPressure?)
  }

  lemma {:induction false} SelectsNone(k: Kind, msgs: seq<Msg>)
    requires Select(k, msgs) == []
    ensures forall m :: m in msgs ==> !Of(k, m)
  {
    if msgs != [] {
      SelectsNone(k, msgs[1..]);
    }
  }

  /** A batch returns what has an order first, then a refresh, then a pressure level. */
  lemma {:induction false} TailComesLast(ops: seq<Op>, limit: nat) returns (n: nat)
    ensures n <= |Batch(ops, limit)| && IsTail(Batch(ops, limit)[n..])
    ensures forall m :: m in Batch(ops, limit)[..n] ==> !m.RefreshVideo? && !m.VideoPressure?
  {
    var s := Run(ops).state;
    var ordered := Messages(Drain(s, limit).1);
    n := |ordered|;
    SlotsHoldLatest(ops, Refreshes);
    DrainSlot(s, limit, Refreshes, Latest(ops, Refreshes));
    SelectsNone(Refreshes, ordered);
    SlotsHoldLatest(ops, Pressures);
    DrainSlot(s, limit, Pressures, Latest(ops, Pressures));
    SelectsNone(Pressures, ordered);
    assert Batch(ops, limit)[..n] == ordered;
  }

  // ---------------------------------------------------------------- the books of a slot

  /** How many messages of a kind a run let through, emitted, replaced by a later one, and discarded. */
  datatype Books = Books(arrived: nat, emitted: nat, replaced: nat, discarded: nat)

  function BooksOf(ops: seq<Op>, k: Kind): Books {
    if ops == [] then Books(0, 0, 0, 0)
    else
      var last, before := |ops| - 1, ops[..|ops| - 1];
      var b, held := BooksOf(before, k), if Latest(before, k).Some? then 1 else 0;
      if Brings(ops, last, k) then b.(arrived := b.arrived + 1, replaced := b.replaced + held)
      else if Discards(ops, last, k) then b.(discarded := b.discarded + held)
      else if ops[last].Take? then b.(emitted := b.emitted + |Select(k, Batch(before, ops[last].limit))|)
      else b
  }

  /** Each message let through is emitted once, replaced, discarded, or still the one that waits. */
  lemma {:induction false} SlotBooksBalance(ops: seq<Op>, k: Kind)
    ensures var b := BooksOf(ops, k);
            b.arrived == b.emitted + b.replaced + b.discarded + (if Latest(ops, k).Some? then 1 else 0)
  {
    if ops != [] {
      var before, op := ops[..|ops| - 1], ops[|ops| - 1];
      SlotBooksBalance(before, k);
      if op.Take? {
        BatchBringsLatest(before, op.limit, k);
      }
    }
  }
}

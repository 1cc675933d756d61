/** Publication receipts: what a receipt may claim about a socket write, under every interleaving of its users. */
module Publications {
  import opened Prelude

  const EXPIRY: nat := 5
  const TABLE_LIMIT: nat := 64

  datatype Mark = Pending | Written | Failed

  /** Where the one token of a receipt is: with the producer, queued, at a stage of the write, or dropped. */
  datatype Place = Producer | Queue | Checked | Marked | Ready | Sent | Done | Dropped

  datatype Receipt = Receipt(
    mark: Mark,
    created: nat,
    writing: bool,
    armed: nat,       // observers that found it expired and not being written, and have not acted on it yet
    place: Place,
    sendOk: bool)     // the socket write of this message returned Ok

  function NewReceipt(now: nat): Receipt {
    Receipt(Pending, now, false, 0, Producer, false)
  }

  /** Compare-exchange from pending. */
  function Settle(r: Receipt, mark: Mark): Receipt {
    if r.mark.Pending? then r.(mark := mark) else r
  }

  predicate Expired(r: Receipt, now: nat) {
    now >= r.created + EXPIRY && !r.writing
  }

  /** One atomic access by one of the threads that share a receipt. */
  datatype Access =
    | Observe        // state(): the age and the writing flag are read
    | Expire         // state(): an observer that found it expired marks it failed
    | Refuse         // a revocation, shutdown or closed gate marks it failed
    | Enqueue        // the producer saw it pending and queued the message
    | Begin          // the writer (or a direct send) saw it pending
    | StartWriting   // the writing flag is set
    | Confirm        // it was still pending after the flag was set
    | SendOk         // the socket write returned Ok
    | ReportWritten  // written()
    | Drop           // the token is dropped

  predicate Allowed(r: Receipt, a: Access, now: nat) {
    match a
    case Observe => Expired(r, now)
    case Expire => r.armed > 0
    case Refuse => true
    case Enqueue => r.place == Producer && r.mark.Pending?
    case Begin => (r.place == Producer || r.place == Queue) && r.mark.Pending?
    case StartWriting => r.place == Checked
    case Confirm => r.place == Marked && r.mark.Pending?
    case SendOk => r.place == Ready
    case ReportWritten => r.place == Sent
    case Drop => r.place in {Producer, Queue, Marked, Ready, Done}
  }

  function Touch(r: Receipt, a: Access): Receipt {
    match a
    case Observe => r.(armed := r.armed + 1)
    case Expire => Settle(r, Failed).(armed := if r.armed > 0 then r.armed - 1 else 0)
    case Refuse => Settle(r, Failed)
    case Enqueue => r.(place := Queue)
    case Begin => r.(place := Checked)
    case StartWriting => r.(place := Marked, writing := true)
    case Confirm => r.(place := Ready)
    case SendOk => r.(place := Sent, sendOk := true)
    case ReportWritten => Settle(r, Written).(place := Done)
    case Drop => Settle(r, Failed).(place := Dropped)
  }

  /** All receipts ever made, the table that lookups use, and the clock. */
  datatype World = World(now: nat, receipts: map<nat, Receipt>, table: set<nat>, next: nat)

  const START := World(0, map[], {}, 0)

  datatype Step = Tick | On(id: nat, access: Access) | Reserve(evict: Option<nat>)

  predicate Enabled(w: World, step: Step) {
    match step
    case Tick => true
    case On(id, access) => id in w.receipts && Allowed(w.receipts[id], access, w.now)
    case Reserve(None) => |w.table| < TABLE_LIMIT && w.next < U64_MAX
    case Reserve(Some(id)) =>
      |w.table| >= TABLE_LIMIT && id in w.table && id in w.receipts && !w.receipts[id].mark.Pending?
  }

  function Apply(w: World, step: Step): World
    requires Enabled(w, step)
  {
    match step
    case Tick => w.(now := w.now + 1)
    case On(id, access) => w.(receipts := w.receipts[id := Touch(w.receipts[id], access)])
    case Reserve(evict) =>
      var kept := if evict.Some? then w.table - {evict.value} else w.table;
      if w.next < U64_MAX then
        World(w.now, w.receipts[w.next + 1 := NewReceipt(w.now)], kept + {w.next + 1}, w.next + 1)
      else w.(table := kept)
  }

  // ---------------------------------------------------------------- honesty

  /** Written only after the write returned Ok; terminal once the token is gone. */
  ghost predicate Honest(r: Receipt) {
    && (r.mark.Written? ==> r.sendOk)
    && (r.place == Dropped || r.place == Done ==> !r.mark.Pending?)
    && (r.sendOk <==> r.place == Sent || r.place == Done || (r.place == Dropped && r.sendOk))
    && (r.place in {Marked, Ready, Sent, Done} ==> r.writing)
    && (r.sendOk ==> r.writing)
  }

  ghost predicate Inv(w: World) {
    && (forall id :: id in w.receipts ==> Honest(w.receipts[id]))
    && (forall id :: id in w.receipts <==> 1 <= id <= w.next)
    && w.table <= w.receipts.Keys
    && |w.table| <= TABLE_LIMIT
  }

  lemma {:induction false} TouchHonest(r: Receipt, a: Access, now: nat)
    requires Honest(r) && Allowed(r, a, now)
    ensures Honest(Touch(r, a))
  {
  }

  /** A receipt settles once: no access by anyone ever changes a settled mark. */
  lemma {:induction false} SettledIsFinal(w: World, step: Step, id: nat)
    requires Inv(w) && Enabled(w, step) && id in w.receipts && !w.receipts[id].mark.Pending?
    ensures id in Apply(w, step).receipts && Apply(w, step).receipts[id].mark == w.receipts[id].mark
  {
  }

  lemma {:induction false} StepKeepsInv(w: World, step: Step)
    requires Inv(w) && Enabled(w, step)
    ensures Inv(Apply(w, step))
  {
    match step
    case Tick =>
    case On(id, access) => TouchHonest(w.receipts[id], access, w.now);
    case Reserve(evict) => ReserveKeepsInv(w, evict);
  }

  lemma {:induction false} ReserveKeepsTable(w: World, evict: Option<nat>)
    requires Inv(w) && Enabled(w, Reserve(evict))
    ensures var t := Apply(w, Reserve(evict)); t.table <= t.receipts.Keys && |t.table| <= TABLE_LIMIT
  {
    if evict.Some? {
      assert |w.table - {evict.value}| == |w.table| - 1;
    }
  }

  lemma {:induction false} ReserveKeepsReceipts(w: World, evict: Option<nat>)
    requires Inv(w) && Enabled(w, Reserve(evict))
    ensures var t := Apply(w, Reserve(evict));
            && (forall id :: id in t.receipts ==> Honest(t.receipts[id]))
            && (forall id :: id in t.receipts <==> 1 <= id <= t.next)
  {
    assert Honest(NewReceipt(w.now));
  }

  lemma {:induction false} ReserveKeepsInv(w: World, evict: Option<nat>)
    requires Inv(w) && Enabled(w, Reserve(evict))
    ensures Inv(Apply(w, Reserve(evict)))
  {
    ReserveKeepsTable(w, evict);
    ReserveKeepsReceipts(w, evict);
  }

  /** The table never loses a pending receipt. */
  lemma {:induction false} EvictionSparesPending(w: World, step: Step, id: nat)
    requires Inv(w) && Enabled(w, step) && id in w.table && w.receipts[id].mark.Pending?
    ensures id in Apply(w, step).table
  {
  }

  ghost predicate Reaches(w: World, steps: seq<Step>, end: World)
    decreases |steps|
  {
    if steps == [] then w == end
    else Enabled(w, steps[0]) && Reaches(Apply(w, steps[0]), steps[1..], end)
  }

  lemma {:induction false} RunKeepsInv(w: World, steps: seq<Step>, end: World)
    requires Inv(w) && Reaches(w, steps, end)
    ensures Inv(end)
    decreases |steps|
  {
    if steps != [] {
      StepKeepsInv(w, steps[0]);
      RunKeepsInv(Apply(w, steps[0]), steps[1..], end);
    }
  }

  lemma {:induction false} RunKeepsSettled(w: World, steps: seq<Step>, end: World, id: nat)
    requires Inv(w) && Reaches(w, steps, end) && id in w.receipts && !w.receipts[id].mark.Pending?
    ensures id in end.receipts && end.receipts[id].mark == w.receipts[id].mark
    decreases |steps|
  {
    if steps != [] {
      StepKeepsInv(w, steps[0]);
      SettledIsFinal(w, steps[0], id);
      RunKeepsSettled(Apply(w, steps[0]), steps[1..], end, id);
    }
  }

  /**
   * Under every interleaving: a receipt that reads written stands for a write that returned Ok, every dropped
   * token is terminal, the table stays within its limit, and from any later point a settled mark never changes.
   */
  lemma {:induction false} ReceiptsAreHonest(before: seq<Step>, w: World, after: seq<Step>, end: World)
    requires Reaches(START, before, w) && Reaches(w, after, end)
    ensures forall id :: id in end.receipts ==>
              && (end.receipts[id].mark.Written? ==> end.receipts[id].sendOk)
              && (end.receipts[id].place == Dropped ==> !end.receipts[id].mark.Pending?)
    ensures |end.table| <= 64 && forall id :: id in end.receipts <==> 1 <= id <= end.next
    ensures forall id :: id in w.receipts && !w.receipts[id].mark.Pending? ==>
              id in end.receipts && end.receipts[id].mark == w.receipts[id].mark
  {
    RunKeepsInv(START, before, w);
    RunKeepsInv(w, after, end);
    forall id | id in w.receipts && !w.receipts[id].mark.Pending?
      ensures id in end.receipts && end.receipts[id].mark == w.receipts[id].mark
    {
      RunKeepsSettled(w, after, end, id);
    }
  }

  /** A sequence of accesses to one receipt, each allowed when it happens. */
  ghost predicate Replays(r: Receipt, accesses: seq<Access>, now: nat, end: Receipt)
    decreases |accesses|
  {
    if accesses == [] then r == end
    else Allowed(r, accesses[0], now) && Replays(Touch(r, accesses[0]), accesses[1..], now, end)
  }

  /**
   * A message can go out and its receipt read failed. Here an observer found the receipt expired before the writing
   * flag was set and marks it only afterwards, five ticks after the receipt was made.
   */
  lemma {:induction false} SentMayReadFailed()
    ensures Replays(NewReceipt(0), [Begin, Observe, StartWriting, Confirm, Expire, SendOk], EXPIRY,
                    Receipt(Failed, 0, true, 0, Sent, true))
  {
    var a := [Begin, Observe, StartWriting, Confirm, Expire, SendOk];
    assert a[1..] == [Observe, StartWriting, Confirm, Expire, SendOk];
    assert a[1..][1..] == [StartWriting, Confirm, Expire, SendOk];
    assert a[1..][1..][1..] == [Confirm, Expire, SendOk];
    assert a[1..][1..][1..][1..] == [Expire, SendOk];
    assert a[1..][1..][1..][1..][1..] == [SendOk];
    assert a[1..][1..][1..][1..][1..][1..] == [];
  }

  /** The other way: a shutdown or a revocation refuses the receipt without looking at the writing flag. */
  lemma {:induction false} RefusalIgnoresWriting()
    ensures Replays(NewReceipt(0), [Begin, StartWriting, Confirm, Refuse, SendOk], 0,
                    Receipt(Failed, 0, true, 0, Sent, true))
  {
    var a := [Begin, StartWriting, Confirm, Refuse, SendOk];
    assert a[1..] == [StartWriting, Confirm, Refuse, SendOk];
    assert a[1..][1..] == [Confirm, Refuse, SendOk];
    assert a[1..][1..][1..] == [Refuse, SendOk];
    assert a[1..][1..][1..][1..] == [SendOk];
    assert a[1..][1..][1..][1..][1..] == [];
  }

  // ---------------------------------------------------------------- after a confirmed start of the write

  /** A run in which the message goes out and the receipt nevertheless reads failed. */
  ghost predicate SentReadsFailed(w: World, id: nat, refusals: bool, steps: seq<Step>, end: World) {
    && Reaches(w, steps, end) && (refusals || On(id, Refuse) !in steps)
    && id in end.receipts && end.receipts[id].sendOk && end.receipts[id].mark.Failed?
  }

  /** What stays true of a confirmed receipt that nobody can fail any more while it is being written. */
  ghost predicate Unfailing(r: Receipt) {
    && r.writing && r.armed == 0
    && (r.place in {Ready, Sent} ==> r.mark.Pending?)
    && (r.place == Done || (r.place == Dropped && r.sendOk) ==> r.mark.Written?)
    && r.place in {Ready, Sent, Done, Dropped} && (r.place == Ready ==> !r.sendOk)
  }

  lemma {:induction false} RunStaysUnfailing(w: World, steps: seq<Step>, end: World, id: nat)
    requires Inv(w) && Reaches(w, steps, end) && On(id, Refuse) !in steps
    requires id in w.receipts && Unfailing(w.receipts[id])
    ensures id in end.receipts && Unfailing(end.receipts[id])
    decreases |steps|
  {
    if steps != [] {
      var next := Apply(w, steps[0]);
      StepKeepsInv(w, steps[0]);
      assert steps[0] in steps;
      assert Unfailing(next.receipts[id]);
      RunStaysUnfailing(next, steps[1..], end, id);
    }
  }

  lemma {:induction false} TwoAccesses(w: World, id: nat, first: Access, second: Access)
    requires id in w.receipts && Allowed(w.receipts[id], first, w.now)
    requires Allowed(Touch(w.receipts[id], first), second, w.now)
    ensures var end := w.(receipts := w.receipts[id := Touch(Touch(w.receipts[id], first), second)]);
            Reaches(w, [On(id, first), On(id, second)], end)
  {
    var steps := [On(id, first), On(id, second)];
    var mid := Apply(w, steps[0]);
    var end := Apply(mid, steps[1]);
    assert steps[1..] == [steps[1]] && steps[1..][1..] == [];
    assert Reaches(end, [], end);
    assert Reaches(mid, steps[1..], end);
    assert end.receipts == w.receipts[id := Touch(Touch(w.receipts[id], first), second)];
  }

  /**
   * Exactly when a receipt whose write was confirmed cannot be sent and still read failed, in any run from there: no
   * observer that found it expired is left to act, and nothing refuses it.
   */
  lemma {:induction false} ConfirmedReadsWrittenExactly(w: World, id: nat, refusals: bool)
    requires Inv(w) && id in w.receipts && w.receipts[id].place == Ready && w.receipts[id].mark.Pending?
    ensures (forall steps, end :: !SentReadsFailed(w, id, refusals, steps, end)) <==>
            w.receipts[id].armed == 0 && !refusals
  {
    if w.receipts[id].armed == 0 && !refusals {
      forall steps, end ensures !SentReadsFailed(w, id, refusals, steps, end) {
        if Reaches(w, steps, end) && On(id, Refuse) !in steps {
          RunStaysUnfailing(w, steps, end, id);
        }
      }
    } else {
      var first := if refusals then Refuse else Expire;
      TwoAccesses(w, id, first, SendOk);
      var end := w.(receipts := w.receipts[id := Touch(Touch(w.receipts[id], first), SendOk)]);
      assert SentReadsFailed(w, id, refusals, [On(id, first), On(id, SendOk)], end);
    }
  }

  /** In the good case every run that reports the write reads written. */
  lemma {:induction false} ConfirmedReadsWritten(w: World, steps: seq<Step>, end: World, id: nat)
    requires Inv(w) && Reaches(w, steps, end) && On(id, Refuse) !in steps
    requires id in w.receipts && w.receipts[id].place == Ready && w.receipts[id].mark.Pending?
    requires w.receipts[id].armed == 0
    ensures id in end.receipts && (end.receipts[id].place == Done ==> end.receipts[id].mark.Written?)
  {
    RunStaysUnfailing(w, steps, end, id);
  }

  // ---------------------------------------------------------------- the table object

  /** Receipt::state: an expired receipt that is not being written fails first. */
  function Seen(r: Receipt, now: nat): Receipt {
    if Expired(r, now) then Settle(r, Failed) else r
  }

  lemma {:induction false} SameSize(a: map<nat, Receipt>, b: map<nat, Receipt>)
    requires a.Keys == b.Keys
    ensures |a| == |b|
  {
    assert |a| == |a.Keys| && |b| == |b.Keys|;
  }

  /** The receipts below `id` have been read and are pending; the others are as they were. */
  ghost predicate ReadBelow(was: map<nat, Receipt>, current: map<nat, Receipt>, id: nat, now: nat) {
    && current.Keys == was.Keys
    && forall k :: k in current ==>
         if k < id then current[k] == Seen(was[k], now) && current[k].mark.Pending? else current[k] == was[k]
  }

  class Table {
    var next: nat
    var receipts: map<nat, Receipt>

    ghost predicate Valid()
      reads this
    {
      && |receipts| <= TABLE_LIMIT
      && next <= U64_MAX
      && forall id :: id in receipts ==> 1 <= id <= next
    }

    constructor ()
      ensures Valid() && next == 0 && receipts == map[]
    {
      next := 0;
      receipts := map[];
    }

    /** The lowest id whose receipt is settled; receipts read on the way may expire. */
    method FirstSettled(now: nat) returns (found: Option<nat>)
      requires Valid()
      modifies this`receipts
      ensures Valid() && receipts.Keys == old(receipts.Keys)
      ensures forall id :: id in receipts ==>
                receipts[id] == old(receipts)[id] || receipts[id] == Seen(old(receipts)[id], now)
      ensures found.Some? ==>
                found.value in receipts && !receipts[found.value].mark.Pending? &&
                forall id :: id in receipts && id < found.value ==> receipts[id].mark.Pending?
      ensures found.None? ==> forall id :: id in receipts ==> Seen(old(receipts)[id], now).mark.Pending?
    {
      var id := 1;
      while id <= next
        invariant 1 <= id <= next + 1
        invariant receipts.Keys == old(receipts.Keys)
        invariant ReadBelow(old(receipts), receipts, id, now)
      {
        if id in receipts {
          ghost var was := receipts;
          receipts := receipts[id := Seen(receipts[id], now)];
          assert receipts.Keys == was.Keys;
          if !receipts[id].mark.Pending? {
            SameSize(receipts, old(receipts));
            return Some(id);
          }
        }
        id := id + 1;
      }
      SameSize(receipts, old(receipts));
      found := None;
    }

    /** Publications::reserve */
    method ReserveId(now: nat) returns (id: Option<nat>)
      requires Valid()
      modifies this
      ensures Valid()
      ensures id.Some? ==>
                id.value == old(next) + 1 == next && id.value in receipts && receipts[id.value] == NewReceipt(now)
      ensures id.None? ==> next == old(next)
      ensures id.None? <==>
                old(next) == U64_MAX ||
                (|old(receipts)| >= TABLE_LIMIT && forall k :: k in old(receipts) ==> Seen(old(receipts)[k], now).mark.Pending?)
      ensures forall k :: k in old(receipts) && k !in receipts ==> !Seen(old(receipts)[k], now).mark.Pending?
      ensures |old(receipts)| >= 64 && (exists k :: k in old(receipts) && !Seen(old(receipts)[k], now).mark.Pending?) ==>
                exists k :: k in old(receipts) && k !in receipts
      ensures forall k :: k in old(receipts) && k !in receipts ==>
                |old(receipts)| >= TABLE_LIMIT && forall j :: j in old(receipts) && j < k ==> j in receipts && receipts[j].mark.Pending?
    {
      if |receipts| >= TABLE_LIMIT {
        var completed := FirstSettled(now);
        if completed.None? {
          return None;
        }
        assert |receipts.Keys - {completed.value}| == |receipts.Keys| - 1;
        receipts := receipts - {completed.value};
        assert receipts.Keys == old(receipts.Keys) - {completed.value};
      }
      if next == U64_MAX {
        return None;
      }
      next := next + 1;
      assert |receipts.Keys + {next}| == |receipts.Keys| + 1;
      receipts := receipts[next := NewReceipt(now)];
      assert receipts.Keys == receipts.Keys + {next};
      id := Some(next);
    }

    /** Publications::state: 0 for an id the table does not hold, else the receipt's own state. */
    method State(id: nat, shutdown: bool, now: nat) returns (mark: Option<Mark>)
      requires Valid()
      modifies this`receipts
      ensures Valid() && receipts.Keys == old(receipts.Keys)
      ensures mark.Some? <==> id in receipts
      ensures mark.Some? ==> mark.value == receipts[id].mark
      ensures mark.Some? ==>
                && (mark.value.Written? <==> old(receipts)[id].mark.Written?)
                && (mark.value.Pending? <==>
                      && old(receipts)[id].mark.Pending? && !shutdown
                      && (now < old(receipts)[id].created + 5 || old(receipts)[id].writing))
      ensures forall k :: k in receipts && k != id ==> receipts[k] == old(receipts)[k]
      ensures id in receipts ==>
                receipts[id] == Seen(if shutdown then Settle(old(receipts)[id], Failed) else old(receipts)[id], now)
    {
      if id !in receipts {
        return None;
      }
      var r := receipts[id];
      if shutdown {
        r := Settle(r, Failed);
      }
      r := Seen(r, now);
      receipts := receipts[id := r];
      assert receipts.Keys == old(receipts.Keys);
      assert |receipts.Keys| == |old(receipts.Keys)|;
      mark := Some(r.mark);
    }
  }
}

/** When a receipt can expire, and what a settled receipt means for a message that was not yet sent. */
module ReceiptTimes {
  import opened Prelude
  import opened Publications

  // ---------------------------------------------------------------- settled before the write

  /** The write of the message has not been confirmed yet. */
  predicate Unconfirmed(r: Receipt) {
    r.place in {Producer, Queue, Checked, Marked}
  }

  /** A receipt that settled before its write was confirmed. */
  predicate Stuck(r: Receipt) {
    !r.mark.Pending? && !r.sendOk && (Unconfirmed(r) || r.place == Dropped)
  }

  lemma {:induction false} StaysStuck(w: World, steps: seq<Step>, end: World, id: nat)
    requires Inv(w) && Reaches(w, steps, end) && id in w.receipts && Stuck(w.receipts[id])
    ensures id in end.receipts && Stuck(end.receipts[id])
    ensures w.receipts[id].place in {Producer, Queue, Dropped} ==>
              end.receipts[id].place == w.receipts[id].place || end.receipts[id].place == Dropped
    decreases |steps|
  {
    if steps != [] {
      var next := Apply(w, steps[0]);
      StepKeepsInv(w, steps[0]);
      assert Stuck(next.receipts[id]);
      StaysStuck(next, steps[1..], end, id);
    }
  }

  /** A run after which the message has been sent. */
  ghost predicate Sends(w: World, id: nat, steps: seq<Step>, end: World) {
    Reaches(w, steps, end) && id in end.receipts && end.receipts[id].sendOk
  }

  /** The accesses that lead from a place to the socket. */
  function Path(place: Place): seq<Access> {
    match place
    case Producer => [Begin, StartWriting, Confirm, SendOk]
    case Queue => [Begin, StartWriting, Confirm, SendOk]
    case Checked => [StartWriting, Confirm, SendOk]
    case Marked => [Confirm, SendOk]
    case Ready => [SendOk]
    case _ => []
  }

  lemma {:induction false} PathSends(w: World, id: nat) returns (steps: seq<Step>, end: World)
    requires Inv(w) && id in w.receipts && w.receipts[id].mark.Pending?
    requires Unconfirmed(w.receipts[id]) || w.receipts[id].place == Ready
    ensures Sends(w, id, steps, end)
    decreases |Path(w.receipts[id].place)|
  {
    var r := w.receipts[id];
    var step := On(id, Path(r.place)[0]);
    var next := Apply(w, step);
    StepKeepsInv(w, step);
    if r.place == Ready {
      steps, end := [step], next;
      assert Reaches(next, [], next) && steps[1..] == [];
    } else {
      var rest;
      rest, end := PathSends(next, id);
      steps := [step] + rest;
      assert steps[1..] == rest;
    }
  }

  /**
   * Exactly when a message whose write is not confirmed can still be sent: while its receipt is pending. And once it is
   * settled a message that waits is not even begun.
   */
  lemma {:induction false} SentOnlyWhilePending(w: World, id: nat)
    requires Inv(w) && id in w.receipts && Unconfirmed(w.receipts[id])
    ensures (exists steps, end :: Sends(w, id, steps, end)) <==> w.receipts[id].mark.Pending?
    ensures !w.receipts[id].mark.Pending? && w.receipts[id].place in {Producer, Queue} ==>
              forall steps, end :: Reaches(w, steps, end) ==>
                id in end.receipts && end.receipts[id].place in {w.receipts[id].place, Dropped}
  {
    if w.receipts[id].mark.Pending? {
      var steps, end := PathSends(w, id);
    } else {
      forall steps, end | Reaches(w, steps, end)
        ensures id in end.receipts && !end.receipts[id].sendOk
        ensures w.receipts[id].place in {Producer, Queue} ==> end.receipts[id].place in {w.receipts[id].place, Dropped}
      {
        StaysStuck(w, steps, end, id);
      }
    }
  }

  // ---------------------------------------------------------------- expiry

  /** How often the clock ticks. */
  function Ticks(steps: seq<Step>): nat {
    if steps == [] then 0 else (if steps[0].Tick? then 1 else 0) + Ticks(steps[1..])
  }

  /** A run of n ticks in which the receipt fails although nothing refuses it and its token is not dropped. */
  ghost predicate Expires(w: World, id: nat, n: nat, steps: seq<Step>, end: World) {
    && Reaches(w, steps, end) && Ticks(steps) == n && On(id, Refuse) !in steps && On(id, Drop) !in steps
    && id in end.receipts && end.receipts[id].mark.Failed?
  }

  ghost predicate CanExpire(w: World, id: nat, n: nat) {
    exists steps, end :: Expires(w, id, n, steps, end)
  }

  lemma {:induction false} YoungStays(w: World, steps: seq<Step>, end: World, id: nat)
    requires Inv(w) && Reaches(w, steps, end) && On(id, Refuse) !in steps && On(id, Drop) !in steps
    requires id in w.receipts && w.receipts[id].armed == 0 && !w.receipts[id].mark.Failed?
    requires w.now + Ticks(steps) < w.receipts[id].created + EXPIRY
    ensures id in end.receipts && !end.receipts[id].mark.Failed?
    decreases |steps|
  {
    if steps != [] {
      var next := Apply(w, steps[0]);
      StepKeepsInv(w, steps[0]);
      assert steps[0] in steps;
      assert next.receipts[id].armed == 0 && !next.receipts[id].mark.Failed?;
      YoungStays(next, steps[1..], end, id);
    }
  }

  function Waiting(n: nat): (r: seq<Step>)
    ensures |r| == n && forall s :: s in r ==> s.Tick?
  {
    if n == 0 then [] else [Tick] + Waiting(n - 1)
  }

  lemma {:induction false} OneTickFirst(n: nat, rest: seq<Step>)
    requires n > 0
    ensures Waiting(n) + rest == [Tick] + (Waiting(n - 1) + rest)
    ensures (Waiting(n) + rest)[1..] == Waiting(n - 1) + rest
  {
  }

  lemma {:induction false} WaitTicks(n: nat, rest: seq<Step>)
    ensures Ticks(Waiting(n) + rest) == n + Ticks(rest)
  {
    if n == 0 {
      assert Waiting(0) + rest == rest;
    } else {
      OneTickFirst(n, rest);
      WaitTicks(n - 1, rest);
    }
  }

  lemma {:induction false} WaitThen(w: World, n: nat, rest: seq<Step>, end: World)
    requires Reaches(w.(now := w.now + n), rest, end)
    ensures Reaches(w, Waiting(n) + rest, end)
    decreases n
  {
    if n == 0 {
      assert Waiting(0) + rest == rest && w.(now := w.now + 0) == w;
    } else {
      var next := Apply(w, Tick);
      assert next.(now := next.now + (n - 1)) == w.(now := w.now + n);
      WaitThen(next, n - 1, rest, end);
      OneTickFirst(n, rest);
    }
  }

  lemma {:induction false} OldExpires(w: World, id: nat, n: nat) returns (steps: seq<Step>, end: World)
    requires Inv(w) && id in w.receipts && w.receipts[id] == NewReceipt(w.now) && n >= EXPIRY
    ensures Expires(w, id, n, steps, end)
  {
    var late := w.(now := w.now + n);
    TwoAccesses(late, id, Observe, Expire);
    end := late.(receipts := w.receipts[id := Touch(Touch(w.receipts[id], Observe), Expire)]);
    var rest := [On(id, Observe), On(id, Expire)];
    assert rest[1..] == [On(id, Expire)] && rest[1..][1..] == [];
    assert Ticks(rest[1..][1..]) == 0 && Ticks(rest[1..]) == 0;
    WaitThen(w, n, rest, end);
    WaitTicks(n, rest);
    steps := Waiting(n) + rest;
  }

  /**
   * Exactly when a receipt can expire that nothing refuses and whose token is kept: in a run of n ticks from its making
   * if and only if n is at least 5.
   */
  lemma {:induction false} ExpiresExactly(w: World, evict: Option<nat>, n: nat)
    requires Inv(w) && Enabled(w, Reserve(evict)) && w.next < U64_MAX
    ensures var made := Apply(w, Reserve(evict));
            CanExpire(made, w.next + 1, n) <==> n >= 5
  {
    var made, id := Apply(w, Reserve(evict)), w.next + 1;
    StepKeepsInv(w, Reserve(evict));
    if n >= 5 {
      var steps, end := OldExpires(made, id, n);
    } else {
      forall steps, end | Reaches(made, steps, end) && Ticks(steps) == n && On(id, Refuse) !in steps && On(id, Drop) !in steps
        ensures id in end.receipts && !end.receipts[id].mark.Failed?
      {
        YoungStays(made, steps, end, id);
      }
    }
  }
}

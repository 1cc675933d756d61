/** The phone gate as an interleaved protocol between producers, the closer and the sending loop. */
module PhoneFence {
  import opened Prelude
  import opened ControlMessages
  import opened InboxModel
  import opened InboxOrder
  import opened InboxLedger
  import opened Revocation

  /** Who holds the gate mutex. A closer keeps it over several steps; every other critical section is one step. */
  datatype Gate = Free | Opening | Closing | Bumped | Swept

  /** A dequeued message, with the close counts at which its contents may have been accepted. */
  datatype Carried = Carried(msg: Msg, births: set<nat>)

  /** A message handed to the channel: under a lease or not, and after how many closes. */
  datatype Handed = Handed(carried: Carried, closes: nat, leased: bool)

  datatype Taker = Idle | Ungated

  datatype Fence = Fence(
    inbox: Inbox,
    gate: Gate,
    closes: nat,                // epoch bumps so far, not wrapped
    births: set<nat>,           // close counts at which what the inbox holds may have been accepted
    producers: multiset<Msg>,   // enqueues that took no lease and have not reached the state yet
    taker: Taker,
    batch: seq<Carried>,
    batchEpoch: nat,
    batchCloses: nat,           // the close count that epoch stands for
    sending: Option<Carried>,   // a hand-over in progress without a lease
    sent: seq<Handed>)

  const START := Fence(FRESH, Free, 0, {}, multiset{}, Idle, [], 0, 0, None, [])

  datatype Step =
    | Install
    | Acquire(ready: bool)
    | Bump
    | Sweep
    | Release
    | BeginPut(msg: Msg)
    | PutUngated(msg: Msg)
    | PutGated(msg: Msg)
    | ChangePermission(mask: Mask, enable: bool)
    | BeginTake
    | TakeUngated(limit: nat)
    | TakeGated(limit: nat)
    | HandLeased
    | BeginSend
    | FinishSend

  predicate KeyboardClass(m: Msg) {
    RequiredPermission(m) == Some(KEYBOARD)
  }

  predicate Enabled(f: Fence, step: Step) {
    match step
    case Install => true
    case Acquire(_) => f.inbox.gateInstalled && f.gate == Free
    case Bump => f.gate == Closing
    case Sweep => f.gate == Bumped
    case Release => f.gate == Opening || f.gate == Swept
    case BeginPut(m) => !m.Shutdown? && !Leased(f.inbox, m)
    case PutUngated(m) => m in f.producers
    case PutGated(m) => Leased(f.inbox, m) && f.gate == Free
    case ChangePermission(_, _) => true
    case BeginTake => f.taker == Idle && f.batch == [] && !f.inbox.gateInstalled
    case TakeUngated(_) => f.taker == Ungated
    case TakeGated(_) => f.taker == Idle && f.batch == [] && f.inbox.gateInstalled && f.gate == Free
    case HandLeased => f.sending.None? && f.batch != [] && Leased(f.inbox, f.batch[0].msg) && f.gate == Free
    case BeginSend => f.sending.None? && f.batch != [] && !Leased(f.inbox, f.batch[0].msg)
    case FinishSend => f.sending.Some?
  }

  /** Adds an accepted message to the state; the permission masks are still checked. */
  function Insert(f: Fence, m: Msg): Fence
    requires !m.Shutdown?
  {
    if Denied(f.inbox, m) then f
    else f.(inbox := f.inbox.(state := Store(f.inbox.state, m)),
            births := if KeyboardClass(m) then f.births + {f.closes} else f.births)
  }

  function Label(msgs: seq<Msg>, births: set<nat>): (r: seq<Carried>)
    ensures |r| == |msgs| && forall i | 0 <= i < |r| :: r[i] == Carried(msgs[i], births)
  {
    seq(|msgs|, i requires 0 <= i < |msgs| => Carried(msgs[i], births))
  }

  function Dequeue(f: Fence, limit: nat, epoch: nat, closes: nat): Fence {
    var (state, msgs) := TakeBatch(f.inbox.state, limit);
    f.(inbox := f.inbox.(state := state), batch := Label(msgs, f.births), batchEpoch := epoch, batchCloses := closes,
       taker := Idle)
  }

  function Apply(f: Fence, step: Step): Fence
    requires Enabled(f, step)
  {
    match step
    case Install => f.(inbox := f.inbox.(gateInstalled := true))
    case Acquire(ready) => f.(inbox := f.inbox.(gateReady := ready), gate := if ready then Opening else Closing)
    case Bump => f.(inbox := f.inbox.(epoch := (f.inbox.epoch + 1) % (U64_MAX + 1)), closes := f.closes + 1,
                    gate := Bumped)
    case Sweep => f.(inbox := f.inbox.(state := DiscardProtected(f.inbox.state, {KEYBOARD})), births := {},
                     gate := Swept)
    case Release => f.(gate := Free)
    case BeginPut(m) => f.(producers := f.producers + multiset{m})
    case PutUngated(m) =>
      var g := f.(producers := f.producers - multiset{m});
      if m.Shutdown? then g else Insert(g, m)
    case PutGated(m) => if f.inbox.gateReady then Insert(f, m) else f
    case ChangePermission(mask, enable) => f.(inbox := UpdatePermission(f.inbox, mask, enable))
    case BeginTake => f.(taker := Ungated)
    case TakeUngated(limit) => Dequeue(f, limit, 0, 0)
    case TakeGated(limit) => Dequeue(f, limit, f.inbox.epoch, f.closes)
    case HandLeased =>
      var g := f.(batch := f.batch[1..]);
      if f.inbox.gateReady && f.inbox.epoch == f.batchEpoch
      then g.(sent := f.sent + [Handed(f.batch[0], f.closes, true)]) else g
    case BeginSend => f.(batch := f.batch[1..], sending := Some(f.batch[0]))
    case FinishSend => f.(sending := None, sent := f.sent + [Handed(f.sending.value, f.closes, false)])
  }

  /** The close that closes the gate, run without interruption, is the inbox's own operation. */
  lemma {:induction false} ClosingRefinesInbox(f: Fence)
    requires f.gate == Free
    ensures var a := Apply(f, Install);
            var b := Apply(a, Acquire(false));
            var c := Apply(b, Bump);
            var d := Apply(c, Sweep);
            Apply(d, Release).inbox == SetPhoneReady(f.inbox, false) && Apply(d, Release).gate == Free
  {
  }

  /** An enqueue run without interruption is the inbox's own, with or without a lease. */
  lemma {:induction false} PuttingRefinesInbox(f: Fence, m: Msg)
    requires !m.Shutdown?
    ensures !Leased(f.inbox, m) ==>
              && Enabled(f, BeginPut(m)) && Enabled(Apply(f, BeginPut(m)), PutUngated(m))
              && Apply(Apply(f, BeginPut(m)), PutUngated(m)).inbox == Enqueue(f.inbox, m)
    ensures Leased(f.inbox, m) && f.gate == Free ==>
              Enabled(f, PutGated(m)) && Apply(f, PutGated(m)).inbox == Enqueue(f.inbox, m)
  {
  }

  /** So is a batch: it takes out of the inbox what the inbox's own operation takes, and carries all of it. */
  lemma {:induction false} TakingRefinesInbox(f: Fence, limit: nat)
    requires f.taker == Idle && f.batch == [] && (f.inbox.gateInstalled ==> f.gate == Free)
    ensures var taken := if f.inbox.gateInstalled then Apply(f, TakeGated(limit))
                         else Apply(Apply(f, BeginTake), TakeUngated(limit));
            && taken.inbox == InboxModel.Step(f.inbox, Take(limit))
            && |taken.batch| == |TakeBatch(f.inbox.state, limit).1|
            && forall i | 0 <= i < |taken.batch| :: taken.batch[i].msg == TakeBatch(f.inbox.state, limit).1[i]
  {
  }

  /** The state holds nothing of the keyboard class. */
  ghost predicate KeyboardFree(s: State) {
    Clear(s, KEYBOARD)
  }

  // ---------------------------------------------------------------- the invariant

  ghost predicate Current(births: set<nat>, closes: nat) {
    forall b :: b in births ==> b == closes
  }

  ghost predicate Past(births: set<nat>, closes: nat) {
    forall b :: b in births ==> b <= closes
  }

  /** A batch was taken at the close count its epoch stands for, or before any close. */
  ghost predicate BatchSound(batch: seq<Carried>, taken: nat, closes: nat) {
    taken <= closes &&
    forall k :: k in batch ==>
      Past(k.births, closes) && (Current(k.births, taken) || taken == 0) && (KeyboardClass(k.msg) ==> k.births != {})
  }

  /** A leased hand-over never carries anything accepted before the latest close. */
  ghost predicate Fenced(sent: seq<Handed>) {
    forall h :: h in sent && h.leased && h.closes <= U64_MAX ==> Current(h.carried.births, h.closes)
  }

  /** Every keyboard-class message handed over is labelled with at least one acceptance. */
  ghost predicate Labelled(sent: seq<Handed>) {
    forall h :: h in sent && KeyboardClass(h.carried.msg) ==> h.carried.births != {}
  }

  /** The labels of what the inbox holds: none without keyboard content, and no old one except during a close. */
  ghost predicate Tracked(s: State, births: set<nat>, closes: nat, closing: bool) {
    && Typed(s) && Past(births, closes)
    && (!closing ==> Current(births, closes))
    && (births == {} ==> KeyboardFree(s))
  }

  ghost predicate Inv(f: Fence) {
    && Tracked(f.inbox.state, f.births, f.closes, f.gate == Bumped)
    && f.inbox.epoch == f.closes % (U64_MAX + 1)
    && (forall m :: m in f.producers ==> !m.Shutdown?)
    && f.batchEpoch == f.batchCloses % (U64_MAX + 1)
    && BatchSound(f.batch, f.batchCloses, f.closes)
    && (f.sending.Some? && KeyboardClass(f.sending.value.msg) ==> f.sending.value.births != {})
    && Fenced(f.sent) && Labelled(f.sent)
  }

  lemma {:induction false} StoreTracked(s: State, m: Msg, births: set<nat>, closes: nat, closing: bool)
    requires Tracked(s, births, closes, closing) && !m.Shutdown?
    ensures Tracked(Store(s, m), if KeyboardClass(m) then births + {closes} else births, closes, closing)
  {
    StoreTyped(s, m);
    if births == {} && !KeyboardClass(m) {
      StoreKeepsFree(s, m, KEYBOARD);
    }
  }

  lemma {:induction false} InsertKeepsInv(f: Fence, m: Msg)
    requires Inv(f) && !m.Shutdown?
    ensures Inv(Insert(f, m))
  {
    StoreTracked(f.inbox.state, m, f.births, f.closes, f.gate == Bumped);
  }

  lemma {:induction false} DequeueKeepsInv(f: Fence, limit: nat, c: nat)
    requires Inv(f) && c <= f.closes
    requires Current(f.births, c) || c == 0
    ensures Inv(Dequeue(f, limit, c % (U64_MAX + 1), c))
  {
    TakeFree(f.inbox.state, limit, KEYBOARD);
    var g := Dequeue(f, limit, c % (U64_MAX + 1), c);
    assert forall k :: k in g.batch ==> k.births == f.births;
    assert g.births == f.births && g.closes == f.closes;
    var (state, msgs) := TakeBatch(f.inbox.state, limit);
    forall k | k in g.batch ensures KeyboardClass(k.msg) ==> k.births != {} {
      var i :| 0 <= i < |msgs| && g.batch[i] == k;
      assert msgs[i] in msgs;
    }
  }

  lemma {:induction false} BatchTail(batch: seq<Carried>, taken: nat, closes: nat)
    requires BatchSound(batch, taken, closes) && batch != []
    ensures BatchSound(batch[1..], taken, closes)
  {
    assert forall k :: k in batch[1..] ==> k in batch;
  }

  lemma {:induction false} HandKeepsFence(f: Fence)
    requires Inv(f) && Enabled(f, HandLeased)
    ensures Inv(Apply(f, HandLeased))
  {
    BatchTail(f.batch, f.batchCloses, f.closes);
    var k := f.batch[0];
    assert k in f.batch;
    if f.closes <= U64_MAX && f.inbox.epoch == f.batchEpoch {
      assert f.batchCloses == f.closes;
      assert Current(k.births, f.closes);
    }
    var g := Apply(f, HandLeased);
    assert g == f.(batch := f.batch[1..], sent := g.sent);
    assert forall h :: h in g.sent ==> h in f.sent || (h == Handed(k, f.closes, true) && f.inbox.epoch == f.batchEpoch);
  }

  lemma {:induction false} SendKeepsFence(f: Fence, step: Step)
    requires Inv(f) && (step == BeginSend || step == FinishSend) && Enabled(f, step)
    ensures Inv(Apply(f, step))
  {
    if step == BeginSend {
      BatchTail(f.batch, f.batchCloses, f.closes);
      assert f.batch[0] in f.batch;
    }
  }

  lemma {:induction false} OneMoreClose(births: set<nat>, batch: seq<Carried>, taken: nat, closes: nat)
    requires Past(births, closes) && BatchSound(batch, taken, closes)
    ensures Past(births, closes + 1) && BatchSound(batch, taken, closes + 1)
  {
  }

  lemma {:induction false} BumpKeepsInv(f: Fence)
    requires Inv(f) && f.gate == Closing
    ensures Inv(Apply(f, Bump))
  {
    OneMoreClose(f.births, f.batch, f.batchCloses, f.closes);
    NextEpochAfter(f.closes);
  }

  lemma {:induction false} SweepKeepsInv(f: Fence)
    requires Inv(f) && f.gate == Bumped
    ensures Inv(Apply(f, Sweep))
  {
    SweepFrees(f.inbox.state, KEYBOARD);
    var g := Apply(f, Sweep);
    assert g.births == {} && g.batch == f.batch && g.inbox.epoch == f.inbox.epoch;
  }

  lemma {:induction false} ChangePermissionKeepsInv(f: Fence, mask: Mask, enable: bool)
    requires Inv(f)
    ensures Inv(Apply(f, ChangePermission(mask, enable)))
  {
    if f.births == {} {
      DiscardKeepsFree(f.inbox.state, mask, KEYBOARD);
    }
  }

  lemma {:induction false} StepKeepsInv(f: Fence, step: Step)
    requires Inv(f) && Enabled(f, step)
    ensures Inv(Apply(f, step))
  {
    match step
    case BeginPut(m) =>
    case PutUngated(m) => InsertKeepsInv(f.(producers := f.producers - multiset{m}), m);
    case PutGated(m) => if f.inbox.gateReady { InsertKeepsInv(f, m); }
    case ChangePermission(mask, enable) => ChangePermissionKeepsInv(f, mask, enable);
    case BeginTake =>
    case TakeUngated(limit) => DequeueKeepsInv(f, limit, 0);
    case TakeGated(limit) => DequeueKeepsInv(f, limit, f.closes);
    case HandLeased => HandKeepsFence(f);
    case BeginSend => SendKeepsFence(f, step);
    case FinishSend => SendKeepsFence(f, step);
    case Bump => BumpKeepsInv(f);
    case Sweep => SweepKeepsInv(f);
    case _ =>
  }

  // ---------------------------------------------------------------- every interleaving

  /** A run of enabled steps from a state. */
  ghost predicate Reaches(f: Fence, steps: seq<Step>, g: Fence)
    decreases |steps|
  {
    if steps == [] then f == g
    else Enabled(f, steps[0]) && Reaches(Apply(f, steps[0]), steps[1..], g)
  }

  lemma {:induction false} RunKeepsInv(f: Fence, steps: seq<Step>, g: Fence)
    requires Inv(f) && Reaches(f, steps, g)
    ensures Inv(g)
    decreases |steps|
  {
    if steps != [] {
      StepKeepsInv(f, steps[0]);
      RunKeepsInv(Apply(f, steps[0]), steps[1..], g);
    }
  }

  lemma {:induction false} ReachesConcat(f: Fence, first: seq<Step>, g: Fence, second: seq<Step>, h: Fence)
    requires Reaches(f, first, g) && Reaches(g, second, h)
    ensures Reaches(f, first + second, h)
    decreases |first|
  {
    if first == [] {
      assert first + second == second;
    } else {
      assert (first + second)[1..] == first[1..] + second;
      ReachesConcat(Apply(f, first[0]), first[1..], g, second, h);
    }
  }

  // ---------------------------------------------------------------- leases follow the gate

  /** The gate's owner last opened it, or never touched it. */
  predicate OpenedLast(steps: seq<Step>) {
    steps == [] ||
    var last := steps[|steps| - 1];
    if last.Acquire? then last.ready else OpenedLast(steps[..|steps| - 1])
  }

  lemma {:induction false} ReadyFollows(done: seq<Step>, f: Fence, rest: seq<Step>, g: Fence)
    requires (f.inbox.gateReady <==> OpenedLast(done)) && Reaches(f, rest, g)
    ensures g.inbox.gateReady <==> OpenedLast(done + rest)
    decreases |rest|
  {
    if rest == [] {
      assert done + rest == done;
    } else {
      OneStepFurther(done, rest);
      ReadyStep(f, rest[0]);
      ReadyFollows(done + [rest[0]], Apply(f, rest[0]), rest[1..], g);
    }
  }

  lemma {:induction false} OneStepFurther(done: seq<Step>, rest: seq<Step>)
    requires rest != []
    ensures done + [rest[0]] + rest[1..] == done + rest
    ensures OpenedLast(done + [rest[0]]) == if rest[0].Acquire? then rest[0].ready else OpenedLast(done)
  {
    assert (done + [rest[0]])[..|done|] == done;
  }

  lemma {:induction false} ReadyStep(f: Fence, step: Step)
    requires Enabled(f, step)
    ensures Apply(f, step).inbox.gateReady == if step.Acquire? then step.ready else f.inbox.gateReady
  {
  }

  /**
   * Under every interleaving: a leased message is stored only while the gate was last opened, and the next one of a batch
   * is handed over if and only if the gate was last opened and its epoch is still the one the batch was taken in.
   */
  lemma {:induction false} LeasesFollowGate(steps: seq<Step>, f: Fence)
    requires Reaches(START, steps, f)
    ensures forall m :: Enabled(f, PutGated(m)) && !OpenedLast(steps) ==> Apply(f, PutGated(m)) == f
    ensures Enabled(f, HandLeased) ==>
              Apply(f, HandLeased).sent ==
              f.sent + if OpenedLast(steps) && f.inbox.epoch == f.batchEpoch
                       then [Handed(f.batch[0], f.closes, true)] else []
  {
    ReadyFollows([], START, steps, f);
    assert [] + steps == steps;
  }

  lemma {:induction false} ReachesSnoc(f: Fence, steps: seq<Step>, g: Fence, step: Step)
    requires Reaches(f, steps, g) && Enabled(g, step)
    ensures Reaches(f, steps + [step], Apply(g, step))
  {
    assert [step][1..] == [];
    ReachesConcat(f, steps, g, [step], Apply(g, step));
  }

  lemma {:induction false} ReachesCons(f: Fence, step: Step, steps: seq<Step>, g: Fence)
    requires Enabled(f, step) && Reaches(Apply(f, step), steps, g)
    ensures Reaches(f, [step] + steps, g)
  {
    assert ([step] + steps)[1..] == steps;
  }

  /**
   * Under every interleaving, whatever is handed over under a lease was accepted after the latest close: a close
   * fences what was queued and what had already left the inbox in a batch, even when the gate has reopened.
   */
  lemma {:induction false} ClosedInputNeverHandedOver(steps: seq<Step>, f: Fence)
    requires Reaches(START, steps, f)
    ensures forall h :: h in f.sent && h.leased && h.closes <= U64_MAX ==> Current(h.carried.births, h.closes)
    ensures forall h :: h in f.sent && KeyboardClass(h.carried.msg) ==> h.carried.births != {}
  {
    RunKeepsInv(START, steps, f);
  }

  // ---------------------------------------------------------------- once the gate is installed

  /** The gate is installed and no keyboard-class message is on its way without a lease. */
  predicate Guarded(f: Fence) {
    f.inbox.gateInstalled && (f.sending.Some? ==> !KeyboardClass(f.sending.value.msg))
  }

  /** Everything of the keyboard class that was handed over since the first `from` is leased. */
  ghost predicate LeasedSince(sent: seq<Handed>, from: nat) {
    forall i | from <= i < |sent| :: KeyboardClass(sent[i].carried.msg) ==> sent[i].leased
  }

  lemma {:induction false} StepStaysGuarded(f: Fence, step: Step)
    requires Guarded(f) && Enabled(f, step)
    ensures Guarded(Apply(f, step))
    ensures f.sent <= Apply(f, step).sent && LeasedSince(Apply(f, step).sent, |f.sent|)
  {
  }

  lemma {:induction false} RunStaysGuarded(f: Fence, steps: seq<Step>, g: Fence)
    requires Guarded(f) && Reaches(f, steps, g)
    ensures Guarded(g) && f.sent <= g.sent && LeasedSince(g.sent, |f.sent|)
    decreases |steps|
  {
    if steps != [] {
      var next := Apply(f, steps[0]);
      StepStaysGuarded(f, steps[0]);
      RunStaysGuarded(next, steps[1..], g);
      forall i | |f.sent| <= i < |g.sent| ensures KeyboardClass(g.sent[i].carried.msg) ==> g.sent[i].leased {
        if i < |next.sent| {
          assert g.sent[i] == next.sent[i];
        }
      }
    }
  }

  /**
   * From any reached moment with the gate installed and no keyboard-class hand-over in flight, every keyboard-class
   * message handed over later is leased and was accepted after the latest close.
   */
  lemma {:induction false} InstalledMeansFenced(before: seq<Step>, f: Fence, after: seq<Step>, g: Fence)
    requires Reaches(START, before, f) && Guarded(f) && Reaches(f, after, g)
    ensures f.sent <= g.sent
    ensures forall i | |f.sent| <= i < |g.sent| ::
              KeyboardClass(g.sent[i].carried.msg) ==>
                && g.sent[i].leased && g.sent[i].carried.births != {}
                && (g.sent[i].closes <= U64_MAX ==> Current(g.sent[i].carried.births, g.sent[i].closes))
  {
    ReachesConcat(START, before, f, after, g);
    ClosedInputNeverHandedOver(before + after, g);
    RunStaysGuarded(f, after, g);
    forall i | |f.sent| <= i < |g.sent| && KeyboardClass(g.sent[i].carried.msg)
      ensures g.sent[i].leased && g.sent[i].carried.births != {}
      ensures g.sent[i].closes <= U64_MAX ==> Current(g.sent[i].carried.births, g.sent[i].closes)
    {
      assert g.sent[i] in g.sent;
    }
  }

  // ---------------------------------------------------------------- what the gate cannot recall

  /** A run that hands over something of the keyboard class without a lease. */
  ghost predicate LateUnleased(f: Fence, after: seq<Step>, g: Fence) {
    Reaches(f, after, g) && !LeasedSince(g.sent, |f.sent|)
  }

  /** Exactly when every later keyboard-class hand-over is leased: no such hand-over is in flight. */
  lemma {:induction false} GuardedExactly(before: seq<Step>, f: Fence)
    requires Reaches(START, before, f) && f.inbox.gateInstalled
    ensures (forall after, g :: !LateUnleased(f, after, g)) <==> Guarded(f)
  {
    if Guarded(f) {
      forall after, g ensures !LateUnleased(f, after, g) {
        if Reaches(f, after, g) {
          RunStaysGuarded(f, after, g);
        }
      }
    } else {
      var g := Apply(f, FinishSend);
      assert Reaches(g, [], g);
      ReachesCons(f, FinishSend, [], g);
      assert KeyboardClass(g.sent[|f.sent|].carried.msg);
      assert LateUnleased(f, [FinishSend] + [], g);
    }
  }

  lemma {:induction false} OneKeyTaken(s: State, key: Msg)
    requires s == Store(FRESH_STATE, key) && key.KeyEvent?
    ensures TakeBatch(s, 1).1 == [key]
  {
    assert s.reliable == [Queued(1, key)];
    assert NextPending(s) == Some((1, Reliable));
    var (s1, out) := PopOne(s);
    assert Drain(s1, 0) == (s1, []);
    assert Drain(s, 1).1 == [out] + [];
    assert TakeTail(s1, 0).1 == [];
  }

  /** A key is stored, and nothing else has happened except perhaps the installation of the gate. */
  predicate KeyStored(f: Fence, key: Msg, installed: bool) {
    f == START.(inbox := FRESH.(state := Store(FRESH_STATE, key), gateInstalled := installed), births := {0})
  }

  lemma {:induction false} StoreUngated(key: Msg) returns (steps: seq<Step>, f: Fence)
    requires key.KeyEvent?
    ensures Reaches(START, steps, f) && KeyStored(f, key, false)
  {
    var a := Apply(START, BeginPut(key));
    assert a == START.(producers := multiset{key});
    f := Apply(a, PutUngated(key));
    assert Reaches(f, [], f);
    ReachesCons(a, PutUngated(key), [], f);
    steps := [PutUngated(key)] + [];
    ReachesCons(START, BeginPut(key), steps, f);
    steps := [BeginPut(key)] + steps;
  }

  lemma {:induction false} StoreGated(key: Msg) returns (steps: seq<Step>, f: Fence)
    requires key.KeyEvent?
    ensures Reaches(START, steps, f) && KeyStored(f, key, true)
  {
    var a := Apply(START, Install);
    assert a == START.(inbox := FRESH.(gateInstalled := true));
    f := Apply(a, PutGated(key));
    assert Reaches(f, [], f);
    ReachesCons(a, PutGated(key), [], f);
    steps := [PutGated(key)] + [];
    ReachesCons(START, Install, steps, f);
    steps := [Install] + steps;
  }

  lemma {:induction false} KeyDequeued(f: Fence, key: Msg, installed: bool)
    requires KeyStored(f, key, installed) && key.KeyEvent?
    ensures Dequeue(f, 1, 0, 0).batch == [Carried(key, {0})]
  {
    OneKeyTaken(f.inbox.state, key);
  }

  /** Before the gate is installed a key is taken and its hand-over begun. */
  lemma {:induction false} KeyInFlight(key: Msg) returns (steps: seq<Step>, f: Fence)
    requires key.KeyEvent?
    ensures Reaches(START, steps, f)
    ensures f.sending == Some(Carried(key, {0})) && f.sent == [] && f.closes == 0 && f.gate == Free
    ensures !f.inbox.gateInstalled
  {
    var stored;
    steps, stored := StoreUngated(key);
    KeyDequeued(stored, key, false);
    var a := Apply(stored, BeginTake);
    var b := Apply(a, TakeUngated(1));
    assert b.batch == Dequeue(stored, 1, 0, 0).batch;
    ReachesSnoc(START, steps, stored, BeginTake);
    ReachesSnoc(START, steps + [BeginTake], a, TakeUngated(1));
    ReachesSnoc(START, steps + [BeginTake] + [TakeUngated(1)], b, BeginSend);
    steps := steps + [BeginTake] + [TakeUngated(1)] + [BeginSend];
    f := Apply(b, BeginSend);
  }

  /** One whole close or opening of the gate. */
  function Cycle(ready: bool): seq<Step> {
    if ready then [Acquire(true), Release] else [Acquire(false), Bump, Sweep, Release]
  }

  /** What a close or opening leaves alone. */
  predicate SameTraffic(f: Fence, g: Fence) {
    && g.batch == f.batch && g.batchEpoch == f.batchEpoch && g.sent == f.sent && g.sending == f.sending
    && g.inbox.gateInstalled == f.inbox.gateInstalled && g.gate == f.gate
  }

  lemma {:induction false} CloseOnce(f: Fence) returns (g: Fence)
    requires f.inbox.gateInstalled && f.gate == Free
    ensures Reaches(f, Cycle(false), g) && SameTraffic(f, g)
    ensures g.closes == f.closes + 1 && g.inbox.epoch == (f.inbox.epoch + 1) % (U64_MAX + 1)
  {
    var a := Apply(f, Acquire(false));
    var b := Apply(a, Bump);
    var c := Apply(b, Sweep);
    g := Apply(c, Release);
    assert Reaches(g, [], g);
    ReachesCons(c, Release, [], g);
    ReachesCons(b, Sweep, [Release], g);
    ReachesCons(a, Bump, [Sweep, Release], g);
    ReachesCons(f, Acquire(false), [Bump, Sweep, Release], g);
  }

  lemma {:induction false} OpenOnce(f: Fence) returns (g: Fence)
    requires f.inbox.gateInstalled && f.gate == Free
    ensures Reaches(f, Cycle(true), g) && SameTraffic(f, g)
    ensures g.closes == f.closes && g.inbox.epoch == f.inbox.epoch && g.inbox.gateReady
  {
    var a := Apply(f, Acquire(true));
    g := Apply(a, Release);
    assert Reaches(g, [], g);
    ReachesCons(a, Release, [], g);
    ReachesCons(f, Acquire(true), [Release], g);
  }

  lemma {:induction false} NextEpochAfter(closes: nat)
    ensures (closes % (U64_MAX + 1) + 1) % (U64_MAX + 1) == (closes + 1) % (U64_MAX + 1)
  {
  }

  lemma {:induction false} CloseMany(f: Fence, n: nat) returns (steps: seq<Step>, g: Fence)
    requires f.inbox.gateInstalled && f.gate == Free && f.inbox.epoch == f.closes % (U64_MAX + 1)
    ensures Reaches(f, steps, g) && SameTraffic(f, g)
    ensures g.closes == f.closes + n && g.inbox.epoch == g.closes % (U64_MAX + 1)
  {
    steps, g := [], f;
    if n > 0 {
      steps, g := CloseMany(f, n - 1);
      var before := g;
      var next := CloseOnce(before);
      NextEpochAfter(before.closes);
      ReachesConcat(f, steps, before, Cycle(false), next);
      steps, g := steps + Cycle(false), next;
    }
  }

  /**
   * The one hand-over the gate cannot recall: it had begun, without a lease, before the gate was installed. The key
   * accepted before the first close is handed over after it.
   */
  lemma {:induction false} UnleasedHandOverOutlivesClose(key: Msg) returns (steps: seq<Step>, g: Fence)
    requires key.KeyEvent?
    ensures Reaches(START, steps, g)
    ensures g.sent == [Handed(Carried(key, {0}), 1, false)]
  {
    var before, f := KeyInFlight(key);
    var installed := Apply(f, Install);
    var closed := CloseOnce(installed);
    g := Apply(closed, FinishSend);
    assert Reaches(g, [], g);
    ReachesCons(closed, FinishSend, [], g);
    ReachesConcat(installed, Cycle(false), closed, [FinishSend], g);
    ReachesCons(f, Install, Cycle(false) + [FinishSend], g);
    steps := before + ([Install] + (Cycle(false) + [FinishSend]));
    ReachesConcat(START, before, f, [Install] + (Cycle(false) + [FinishSend]), g);
  }

  /** With the gate installed from the start, a key is taken in a batch of epoch 0. */
  lemma {:induction false} KeyInBatch(key: Msg) returns (steps: seq<Step>, f: Fence)
    requires key.KeyEvent?
    ensures Reaches(START, steps, f)
    ensures f.batch == [Carried(key, {0})] && f.sent == [] && f.sending.None? && f.closes == 0 && f.gate == Free
    ensures f.inbox.gateInstalled && f.inbox.epoch == 0 && f.batchEpoch == 0
  {
    var stored;
    steps, stored := StoreGated(key);
    KeyDequeued(stored, key, true);
    ReachesSnoc(START, steps, stored, TakeGated(1));
    steps := steps + [TakeGated(1)];
    f := Apply(stored, TakeGated(1));
  }

  /** The bound on closes is needed: after 2^64 of them the epoch repeats, and a batch of the first one passes. */
  lemma {:induction false} EpochWrapForgets(key: Msg) returns (steps: seq<Step>, g: Fence)
    requires key.KeyEvent?
    ensures Reaches(START, steps, g)
    ensures g.sent == [Handed(Carried(key, {0}), U64_MAX + 1, true)]
  {
    var before, f := KeyInBatch(key);
    var closing, closed := CloseMany(f, U64_MAX + 1);
    var reopened := OpenOnce(closed);
    g := Apply(reopened, HandLeased);
    assert Reaches(g, [], g);
    ReachesCons(reopened, HandLeased, [], g);
    ReachesConcat(closed, Cycle(true), reopened, [HandLeased], g);
    ReachesConcat(f, closing, closed, Cycle(true) + [HandLeased], g);
    steps := before + (closing + (Cycle(true) + [HandLeased]));
    ReachesConcat(START, before, f, closing + (Cycle(true) + [HandLeased]), g);
  }

  /** A run after which something was handed over under a lease, within so many closes, and before the latest of them. */
  ghost predicate LeasedStale(steps: seq<Step>, f: Fence, h: Handed, limit: nat) {
    Reaches(START, steps, f) && h in f.sent && h.leased && h.closes <= limit && !Current(h.carried.births, h.closes)
  }

  /** Exactly how many closes the leases withstand: every number below 2^64. */
  lemma {:induction false} CloseLimitExact(limit: nat)
    ensures (forall steps, f, h :: !LeasedStale(steps, f, h, limit)) <==> limit <= U64_MAX
  {
    if limit <= U64_MAX {
      forall steps, f, h ensures !LeasedStale(steps, f, h, limit) {
        if Reaches(START, steps, f) {
          ClosedInputNeverHandedOver(steps, f);
        }
      }
    } else {
      var steps, g := EpochWrapForgets(KeyEvent(0, true));
      var h := Handed(Carried(KeyEvent(0, true), {0}), U64_MAX + 1, true);
      assert h in g.sent && 0 in h.carried.births;
      assert LeasedStale(steps, g, h, limit);
    }
  }
}

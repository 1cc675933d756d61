/** What a whole run of a file lane decides: how each job ends, and which connection a lane rests with. */
module LaneOutcomes {
  import opened Prelude
  import opened FileLanes

  // ---------------------------------------------------------------- runs by their last step

  /** The state after some steps; a step that is not enabled does nothing. */
  function Play(steps: seq<Step>): System {
    if steps == [] then START
    else
      var before, step := Play(steps[..|steps| - 1]), steps[|steps| - 1];
      if Enabled(before, step) then Apply(before, step) else before
  }

  ghost predicate Legal(steps: seq<Step>) {
    steps != [] ==> Legal(steps[..|steps| - 1]) && Enabled(Play(steps[..|steps| - 1]), steps[|steps| - 1])
  }

  /** An enabled step leads from the one state to the other. */
  ghost predicate Moves(x: System, step: Step, y: System) {
    Enabled(x, step) && Apply(x, step) == y
  }

  lemma {:induction false} FirstStep(x: System, steps: seq<Step>, s: System) returns (y: System)
    requires steps != [] && Reaches(x, steps, s)
    ensures Moves(x, steps[0], y) && Reaches(y, steps[1..], s)
  {
    y := Apply(x, steps[0]);
  }

  lemma {:induction false} PlayOne(done: seq<Step>, step: Step, y: System)
    requires Legal(done) && Moves(Play(done), step, y)
    ensures Legal(done + [step]) && Play(done + [step]) == y
  {
    var more := done + [step];
    assert more[..|more| - 1] == done;
  }

  lemma {:induction false} MoveOver(done: seq<Step>, rest: seq<Step>)
    requires rest != []
    ensures done + [rest[0]] + rest[1..] == done + rest
  {
  }

  lemma {:induction false} PlayReaches(done: seq<Step>, rest: seq<Step>, s: System)
    requires Legal(done) && Reaches(Play(done), rest, s)
    ensures Legal(done + rest) && Play(done + rest) == s
    decreases |rest|
  {
    if rest == [] {
      assert done + rest == done;
    } else {
      PlayFirst(done, rest, s);
      MoveOver(done, rest);
      PlayReaches(done + [rest[0]], rest[1..], s);
    }
  }

  lemma {:induction false} PlayFirst(done: seq<Step>, rest: seq<Step>, s: System)
    requires rest != [] && Legal(done) && Reaches(Play(done), rest, s)
    ensures Legal(done + [rest[0]]) && Reaches(Play(done + [rest[0]]), rest[1..], s)
  {
    var y := FirstStep(Play(done), rest, s);
    PlayOne(done, rest[0], y);
  }

  lemma {:induction false} ReachesIsPlay(steps: seq<Step>, s: System)
    requires Reaches(START, steps, s)
    ensures Legal(steps) && Play(steps) == s
  {
    PlayReaches([], steps, s);
    assert [] + steps == steps;
  }

  // ---------------------------------------------------------------- running jobs

  ghost predicate Distinct(commands: seq<nat>) {
    forall i, j | 0 <= i < j < |commands| :: commands[i] != commands[j]
  }

  ghost predicate JobRuns(s: System, command: nat) {
    command in s.jobs && s.jobs[command].status.Running?
  }

  /** A command that waits or executes has a running job, and none was dispatched twice. */
  ghost predicate Undecided(s: System) {
    && Distinct(s.dispatched)
    && (forall c :: c in Queued(s) ==> JobRuns(s, c))
    && (forall g :: g in s.lanes && Executing(s.lanes[g].pc) ==> JobRuns(s, s.lanes[g].pc.command))
  }

  ghost predicate Ready(s: System) {
    Inv(s) && Undecided(s)
  }

  lemma {:induction false} ExecutingNotQueued(s: System, lane: nat)
    requires Ready(s) && lane in s.lanes && Executing(s.lanes[lane].pc)
    ensures lane == s.generation && s.lanes[lane].pc.command !in Queued(s)
  {
    var c := s.lanes[lane].pc.command;
    forall k | 0 <= k < |Queued(s)| ensures Queued(s)[k] != c {
      assert s.dispatched[|s.started| - 1] == c;
      assert s.dispatched[|s.started| + k] == Queued(s)[k];
    }
  }

  lemma {:induction false} DispatchUndecided(s: System, step: Step)
    requires Ready(s) && Enabled(s, step) && step.Dispatch?
    ensures Undecided(Apply(s, step))
  {
    var t := Apply(s, step);
    assert step.command !in s.dispatched;
    if s.entry.Some? {
      assert Queued(t) == Queued(s) + [step.command];
    } else if step.spawns {
      assert Queued(t) == [step.command];
    } else {
      assert t.lanes == s.lanes && t.generation == s.generation;
    }
  }

  lemma {:induction false} TakeUndecided(s: System, lane: nat)
    requires Ready(s) && lane in s.lanes && s.lanes[lane].queue != []
    requires s.lanes[lane].pc == HoldsLock || s.lanes[lane].pc == Waiting
    ensures Undecided(TakeCommand(s, lane)) && Undecided(TakeCommand(s, lane).(lock := None))
  {
    assert lane == s.generation;
    var q := s.lanes[lane].queue;
    assert q[0] in q;
    forall c | c in q[1..] ensures JobRuns(s, c) {
      assert c in q;
    }
  }

  lemma {:induction false} SettleUndecided(s: System, lane: nat, result: Option<ErrorKind>, around: Surroundings,
                                           kept: Option<Connection>)
    requires Ready(s) && lane in s.lanes && Executing(s.lanes[lane].pc)
    ensures Undecided(WithLane(Conclude(s, s.lanes[lane].pc.command, result, around), lane,
                               Lane(s.lanes[lane].queue, Waiting, kept)))
  {
    ExecutingNotQueued(s, lane);
  }

  lemma {:induction false} LaneUndecided(s: System, step: Step)
    requires Ready(s) && Enabled(s, step)
    requires step.IdleTick? || step.TakeLock? || step.Disconnect? || step.RequestCancel? || step.DropMap?
    ensures Undecided(Apply(s, step))
  {
    var t := Apply(s, step);
    assert Queued(t) == Queued(s) && t.dispatched == s.dispatched;
  }

  lemma {:induction false} ExecutionUndecided(s: System, step: Step)
    requires Ready(s) && Enabled(s, step) && (step.Admit? || step.Connect? || step.Return?)
    ensures Undecided(Apply(s, step))
  {
    var l, t := s.lanes[step.lane], Apply(s, step);
    match step
    case Admit(lane, openCancelled, before, after) =>
      var usable := if openCancelled then None else l.connection;
      SettleUndecided(s, lane, Check(s.jobs[l.pc.command], before), after, usable);
      assert Queued(t) == Queued(s);
    case Connect(lane, error, after) =>
      SettleUndecided(s, lane, error, after, None);
      assert Queued(t) == Queued(s);
    case Return(lane, result, after) =>
      SettleUndecided(s, lane, if result.RunErr? then Some(result.kind) else None, after,
                      if result == RunOk(true) then l.connection else None);
  }

  lemma {:induction false} StepStaysReady(s: System, step: Step)
    requires Ready(s) && Enabled(s, step)
    ensures Ready(Apply(s, step))
  {
    StepKeepsInv(s, step);
    match step
    case Dispatch(_, _, _) => DispatchUndecided(s, step);
    case Receive(lane) => TakeUndecided(s, lane);
    case LastLook(lane) =>
      if s.lanes[lane].queue != [] {
        TakeUndecided(s, lane);
      } else {
        assert lane == s.generation && Queued(Apply(s, step)) == Queued(s);
      }
    case Admit(_, _, _, _) => ExecutionUndecided(s, step);
    case Connect(_, _, _) => ExecutionUndecided(s, step);
    case Return(_, _, _) => ExecutionUndecided(s, step);
    case _ => LaneUndecided(s, step);
  }

  lemma {:induction false} PlayIsReady(steps: seq<Step>)
    requires Legal(steps)
    ensures Ready(Play(steps))
  {
    if steps != [] {
      PlayIsReady(steps[..|steps| - 1]);
      StepStaysReady(Play(steps[..|steps| - 1]), steps[|steps| - 1]);
    }
  }

  // ---------------------------------------------------------------- how a job ends

  /** What a check at this moment finds first: a denial, then a cancel, then a passed deadline. */
  predicate DeniedFirst(around: Surroundings) {
    around.denied
  }

  predicate CancelledFirst(around: Surroundings, asked: bool) {
    !around.denied && (asked || around.epochCancelled)
  }

  predicate LateFirst(around: Surroundings, asked: bool) {
    !around.denied && !asked && !around.epochCancelled && around.late
  }

  predicate Clear(around: Surroundings, asked: bool) {
    !around.denied && !asked && !around.epochCancelled && !around.late
  }

  /** The command runs, and its run returned Ok at a moment when nothing spoke against it. */
  predicate Succeeds(s: System, step: Step, c: nat, asked: bool) {
    step.Return? && At(s, step.lane, Connecting(c)) && step.result.RunOk? && Clear(step.after, asked)
  }

  /** The first reason against the command is a cancel: of the job, of its session, or reported by the backend. */
  predicate Interrupts(s: System, step: Step, c: nat, asked: bool) {
    match step
    case Admit(lane, _, before, _) => At(s, lane, Admitting(c)) && CancelledFirst(before, asked)
    case Connect(lane, error, _) => At(s, lane, Connecting(c)) && error == Some(Cancelled)
    case Return(lane, result, after) =>
      At(s, lane, Connecting(c)) && if result.RunErr? then result.kind.Cancelled? else CancelledFirst(after, asked)
    case _ => false
  }

  /** The first reason against the command is any other: no lane, a denial, a deadline, or another error. */
  predicate Fails(s: System, step: Step, c: nat, asked: bool) {
    match step
    case Dispatch(command, spawns, _) => command == c && s.entry.None? && !spawns
    case Admit(lane, _, before, _) => At(s, lane, Admitting(c)) && (DeniedFirst(before) || LateFirst(before, asked))
    case Connect(lane, error, _) => At(s, lane, Connecting(c)) && error.Some? && !error.value.Cancelled?
    case Return(lane, result, after) =>
      && At(s, lane, Connecting(c))
      && if result.RunErr? then !result.kind.Cancelled? else DeniedFirst(after) || LateFirst(after, asked)
    case _ => false
  }

  /** Enough of a job to say how the next step decides it. */
  ghost predicate Asked(s: System, c: nat, asked: bool) {
    if c !in s.jobs then !asked else s.jobs[c].status.Running? ==> (s.jobs[c].cancelled <==> asked)
  }

  function Verdict(s: System, step: Step, c: nat, asked: bool): Status {
    if Succeeds(s, step, c, asked) then Complete
    else if Interrupts(s, step, c, asked) then Interrupted
    else if Fails(s, step, c, asked) then Failed
    else Running
  }

  ghost predicate Decided(s: System, t: System, step: Step, c: nat, asked: bool)
    requires c in s.jobs
  {
    && t.jobs.Keys == s.jobs.Keys && t.jobs[c].cancelled == s.jobs[c].cancelled
    && if s.jobs[c].status.Running? then t.jobs[c].status == Verdict(s, step, c, asked)
       else t.jobs[c] == s.jobs[c] && Verdict(s, step, c, asked).Running?
  }

  lemma {:induction false} AdmitDecides(s: System, step: Step, c: nat, asked: bool)
    requires Ready(s) && Enabled(s, step) && c in s.jobs && Asked(s, c, asked) && step.Admit?
    ensures Decided(s, Apply(s, step), step, c, asked)
  {
    assert JobRuns(s, s.lanes[step.lane].pc.command);
  }

  lemma {:induction false} ConnectDecides(s: System, step: Step, c: nat, asked: bool)
    requires Ready(s) && Enabled(s, step) && c in s.jobs && Asked(s, c, asked) && step.Connect?
    ensures Decided(s, Apply(s, step), step, c, asked)
  {
    assert JobRuns(s, s.lanes[step.lane].pc.command);
  }

  lemma {:induction false} ReturnDecides(s: System, step: Step, c: nat, asked: bool)
    requires Ready(s) && Enabled(s, step) && c in s.jobs && Asked(s, c, asked) && step.Return?
    ensures Decided(s, Apply(s, step), step, c, asked)
  {
    assert JobRuns(s, s.lanes[step.lane].pc.command);
  }

  /** One step and one job: a running job ends as the step says, a settled one is not decided again. */
  lemma {:induction false} StepDecides(s: System, step: Step, c: nat, asked: bool)
    requires Ready(s) && Enabled(s, step) && Asked(s, c, asked)
    ensures var t := Apply(s, step);
            && (c in t.jobs <==> c in s.jobs || (step.Dispatch? && step.command == c))
            && (c in t.jobs ==>
                  if c !in s.jobs || s.jobs[c].status.Running? then t.jobs[c].status == Verdict(s, step, c, asked)
                  else t.jobs[c] == s.jobs[c] && Verdict(s, step, c, asked).Running?)
            && Asked(t, c, asked || step == RequestCancel(c))
            && (c !in t.jobs ==> Verdict(s, step, c, asked).Running? && step != RequestCancel(c))
  {
    if step.Admit? || step.Connect? || step.Return? {
      if c !in s.jobs {
        assert JobRuns(s, s.lanes[step.lane].pc.command);
      } else if step.Admit? {
        AdmitDecides(s, step, c, asked);
      } else if step.Connect? {
        ConnectDecides(s, step, c, asked);
      } else {
        ReturnDecides(s, step, c, asked);
      }
    } else {
      QuietStep(s, step, c, asked);
    }
  }

  lemma {:induction false} QuietStep(s: System, step: Step, c: nat, asked: bool)
    requires Ready(s) && Enabled(s, step) && Asked(s, c, asked)
    requires !step.Admit? && !step.Connect? && !step.Return?
    ensures var t := Apply(s, step);
            && (c in t.jobs <==> c in s.jobs || (step.Dispatch? && step.command == c))
            && (c in t.jobs ==>
                  if c !in s.jobs || s.jobs[c].status.Running? then t.jobs[c].status == Verdict(s, step, c, asked)
                  else t.jobs[c] == s.jobs[c] && Verdict(s, step, c, asked).Running?)
            && Asked(t, c, asked || step == RequestCancel(c))
            && (c !in t.jobs ==> Verdict(s, step, c, asked).Running? && step != RequestCancel(c))
  {
  }

  // ---------------------------------------------------------------- the whole history of a job

  /** The i-th step decides the command in this way; a cancel counts once it was asked for. */
  ghost predicate SucceedsAt(steps: seq<Step>, i: nat, c: nat) {
    i < |steps| && Succeeds(Play(steps[..i]), steps[i], c, RequestCancel(c) in steps[..i])
  }

  ghost predicate InterruptsAt(steps: seq<Step>, i: nat, c: nat) {
    i < |steps| && Interrupts(Play(steps[..i]), steps[i], c, RequestCancel(c) in steps[..i])
  }

  ghost predicate FailsAt(steps: seq<Step>, i: nat, c: nat) {
    i < |steps| && Fails(Play(steps[..i]), steps[i], c, RequestCancel(c) in steps[..i])
  }

  lemma {:induction false} EarlierAgrees(steps: seq<Step>, i: nat, c: nat)
    requires steps != [] && i < |steps| - 1
    ensures var init := steps[..|steps| - 1];
            && SucceedsAt(steps, i, c) == SucceedsAt(init, i, c)
            && InterruptsAt(steps, i, c) == InterruptsAt(init, i, c)
            && FailsAt(steps, i, c) == FailsAt(init, i, c)
  {
    assert steps[..|steps| - 1][..i] == steps[..i];
  }

  /** How a history ends a job: as its one deciding step says, or not yet. */
  ghost predicate Reads(steps: seq<Step>, c: nat, status: Status) {
    && (status.Complete? <==> exists i: nat :: SucceedsAt(steps, i, c))
    && (status.Interrupted? <==> exists i: nat :: InterruptsAt(steps, i, c))
    && (status.Failed? <==> exists i: nat :: FailsAt(steps, i, c))
  }

  /** The status before the last step, as if the job existed all along. */
  function StatusOf(s: System, c: nat): Status {
    if c in s.jobs then s.jobs[c].status else Running
  }

  lemma {:induction false} ReadsSnoc(steps: seq<Step>, c: nat, before: Status)
    requires steps != [] && Reads(steps[..|steps| - 1], c, before)
    requires var verdict := Verdict(Play(steps[..|steps| - 1]), steps[|steps| - 1], c,
                                    RequestCancel(c) in steps[..|steps| - 1]);
             before.Running? || verdict.Running?
    ensures var verdict := Verdict(Play(steps[..|steps| - 1]), steps[|steps| - 1], c,
                                   RequestCancel(c) in steps[..|steps| - 1]);
            Reads(steps, c, if before.Running? then verdict else before)
  {
    var n, init := |steps| - 1, steps[..|steps| - 1];
    assert SucceedsAt(steps, n, c) == Succeeds(Play(init), steps[n], c, RequestCancel(c) in init);
    assert InterruptsAt(steps, n, c) == Interrupts(Play(init), steps[n], c, RequestCancel(c) in init);
    assert FailsAt(steps, n, c) == Fails(Play(init), steps[n], c, RequestCancel(c) in init);
    forall i: nat | i < n
      ensures SucceedsAt(steps, i, c) == SucceedsAt(init, i, c)
      ensures InterruptsAt(steps, i, c) == InterruptsAt(init, i, c) && FailsAt(steps, i, c) == FailsAt(init, i, c)
    {
      EarlierAgrees(steps, i, c);
    }
    forall i: nat | SucceedsAt(init, i, c) ensures SucceedsAt(steps, i, c) {
    }
    forall i: nat | InterruptsAt(init, i, c) ensures InterruptsAt(steps, i, c) {
    }
    forall i: nat | FailsAt(init, i, c) ensures FailsAt(steps, i, c) {
    }
  }

  lemma {:induction false} HistoryReads(steps: seq<Step>, c: nat)
    requires Legal(steps)
    ensures Reads(steps, c, StatusOf(Play(steps), c)) && Asked(Play(steps), c, RequestCancel(c) in steps)
  {
    if steps != [] {
      var n, init := |steps| - 1, steps[..|steps| - 1];
      var s, asked := Play(init), RequestCancel(c) in init;
      HistoryReads(init, c);
      PlayIsReady(init);
      StepDecides(s, steps[n], c, asked);
      ReadsSnoc(steps, c, StatusOf(s, c));
      assert steps == init + [steps[n]];
    }
  }

  /**
   * Under every interleaving: a job reads complete if and only if its command's run returned Ok at a moment when it was
   * neither denied, nor cancelled, nor late; interrupted if and only if the first reason against it was a cancel;
   * failed if and only if it was any other; and it is still running as long as none of these has happened.
   */
  lemma {:induction false} JobReads(steps: seq<Step>, s: System, c: nat)
    requires Reaches(START, steps, s) && c in s.jobs
    ensures s.jobs[c].status.Complete? <==> exists i: nat :: SucceedsAt(steps, i, c)
    ensures s.jobs[c].status.Interrupted? <==> exists i: nat :: InterruptsAt(steps, i, c)
    ensures s.jobs[c].status.Failed? <==> exists i: nat :: FailsAt(steps, i, c)
  {
    ReachesIsPlay(steps, s);
    HistoryReads(steps, c);
  }

  // ---------------------------------------------------------------- the connection a lane keeps

  /** The step takes no connection from this lane. */
  predicate Spares(step: Step, lane: nat) {
    match step
    case Return(g, result, _) => g == lane ==> result == RunOk(true)
    case IdleTick(g, alive, _) => g == lane ==> alive
    case Admit(g, openCancelled, _, _) => g == lane ==> !openCancelled
    case _ => true
  }

  predicate Opens(s: System, step: Step, lane: nat, opener: nat) {
    step.Connect? && step.lane == lane && step.error.None? && At(s, lane, Connecting(opener))
  }

  /** The i-th step opened a connection for this command, and no step since took it from the lane. */
  ghost predicate KeptSince(steps: seq<Step>, lane: nat, opener: nat, i: nat) {
    && i < |steps| && Opens(Play(steps[..i]), steps[i], lane, opener)
    && forall j | i < j < |steps| :: Spares(steps[j], lane)
  }

  predicate Alive(s: System, lane: nat) {
    lane in s.lanes && s.lanes[lane].pc != Ended
  }

  /** What a step makes of a live lane's connection: opened by it, or there before and not taken by it. */
  ghost predicate Carried(s: System, t: System, step: Step, lane: nat, opener: nat)
    requires lane in t.lanes
  {
    && (lane in s.lanes ==> Alive(s, lane))
    && (t.lanes[lane].connection == Some(Connection(opener)) <==>
        || Opens(s, step, lane, opener)
        || (Alive(s, lane) && s.lanes[lane].connection == Some(Connection(opener)) && Spares(step, lane)))
  }

  lemma {:induction false} ExecutionCarries(s: System, step: Step, lane: nat, opener: nat)
    requires Inv(s) && Enabled(s, step) && Alive(Apply(s, step), lane)
    requires step.Admit? || step.Connect? || step.Return?
    ensures Carried(s, Apply(s, step), step, lane, opener)
  {
  }

  lemma {:induction false} OtherCarries(s: System, step: Step, lane: nat, opener: nat)
    requires Inv(s) && Enabled(s, step) && Alive(Apply(s, step), lane)
    requires !step.Admit? && !step.Connect? && !step.Return?
    ensures Carried(s, Apply(s, step), step, lane, opener)
  {
  }

  lemma {:induction false} StepConnection(s: System, step: Step, lane: nat, opener: nat)
    requires Inv(s) && Enabled(s, step) && Alive(Apply(s, step), lane)
    ensures Carried(s, Apply(s, step), step, lane, opener)
  {
    if step.Admit? || step.Connect? || step.Return? {
      ExecutionCarries(s, step, lane, opener);
    } else {
      OtherCarries(s, step, lane, opener);
    }
  }

  lemma {:induction false} LaneStays(s: System, step: Step, lane: nat, opener: nat)
    requires Enabled(s, step) && lane !in Apply(s, step).lanes
    ensures lane !in s.lanes && !Opens(s, step, lane, opener)
  {
  }

  lemma {:induction false} KeptBefore(steps: seq<Step>, lane: nat, opener: nat, i: nat)
    requires steps != [] && i < |steps| - 1
    ensures KeptSince(steps, lane, opener, i) <==>
            KeptSince(steps[..|steps| - 1], lane, opener, i) && Spares(steps[|steps| - 1], lane)
  {
    assert steps[..|steps| - 1][..i] == steps[..i];
  }

  lemma {:induction false} KeptSnoc(steps: seq<Step>, lane: nat, opener: nat)
    requires steps != []
    ensures var n, init := |steps| - 1, steps[..|steps| - 1];
            (exists i: nat :: KeptSince(steps, lane, opener, i)) <==>
            || Opens(Play(init), steps[n], lane, opener)
            || ((exists i: nat :: KeptSince(init, lane, opener, i)) && Spares(steps[n], lane))
  {
    var n, init := |steps| - 1, steps[..|steps| - 1];
    assert KeptSince(steps, lane, opener, n) <==> Opens(Play(init), steps[n], lane, opener);
    forall i: nat | i < n
      ensures KeptSince(steps, lane, opener, i) <==> KeptSince(init, lane, opener, i) && Spares(steps[n], lane)
    {
      KeptBefore(steps, lane, opener, i);
    }
    forall i: nat | KeptSince(init, lane, opener, i) && Spares(steps[n], lane) ensures KeptSince(steps, lane, opener, i) {
    }
  }

  /** A lane that does not exist yet has opened nothing. */
  lemma {:induction false} NothingOpened(steps: seq<Step>, lane: nat, opener: nat)
    requires Legal(steps) && lane !in Play(steps).lanes
    ensures forall i: nat :: !KeptSince(steps, lane, opener, i)
  {
    if steps != [] {
      var init := steps[..|steps| - 1];
      LaneStays(Play(init), steps[|steps| - 1], lane, opener);
      NothingOpened(init, lane, opener);
      KeptSnoc(steps, lane, opener);
    }
  }

  lemma {:induction false} HistoryKeeps(steps: seq<Step>, lane: nat, opener: nat)
    requires Legal(steps) && Alive(Play(steps), lane)
    ensures Play(steps).lanes[lane].connection == Some(Connection(opener)) <==>
            exists i: nat :: KeptSince(steps, lane, opener, i)
  {
    if steps != [] {
      var init := steps[..|steps| - 1];
      PlayIsReady(init);
      StepConnection(Play(init), steps[|steps| - 1], lane, opener);
      KeptSnoc(steps, lane, opener);
      if lane in Play(init).lanes {
        HistoryKeeps(init, lane, opener);
      } else {
        NothingOpened(init, lane, opener);
      }
    }
  }

  /** The last run on the lane returned Ok(true). */
  ghost predicate LastRanClean(steps: seq<Step>, lane: nat, j: nat) {
    && j < |steps| && steps[j].Return? && steps[j].lane == lane && steps[j].result == RunOk(true)
    && forall k | j < k < |steps| && steps[k].Return? :: steps[k].lane != lane
  }

  lemma {:induction false} RestsClean(steps: seq<Step>, lane: nat)
    requires Legal(steps) && Rested(Play(steps), lane)
    ensures exists j: nat :: LastRanClean(steps, lane, j)
  {
    var n, init := |steps| - 1, steps[..|steps| - 1];
    PlayIsReady(init);
    if steps[n].Return? && steps[n].lane == lane {
      assert LastRanClean(steps, lane, n);
    } else {
      RestedBefore(Play(init), steps[n], lane);
      RestsClean(init, lane);
      var j: nat :| LastRanClean(init, lane, j);
      assert LastRanClean(steps, lane, j);
    }
  }

  /** The lane holds a connection and is not running a command on it. */
  predicate Rested(s: System, lane: nat) {
    Alive(s, lane) && s.lanes[lane].connection.Some? && !s.lanes[lane].pc.Connecting?
  }

  lemma {:induction false} ExecutionRests(s: System, step: Step, lane: nat)
    requires Inv(s) && Enabled(s, step) && Rested(Apply(s, step), lane)
    requires step.Admit? || step.Connect? || (step.Return? && step.lane != lane)
    ensures Rested(s, lane)
  {
  }

  lemma {:induction false} QuietRests(s: System, step: Step, lane: nat)
    requires Inv(s) && Enabled(s, step) && Rested(Apply(s, step), lane)
    requires step.Dispatch? || step.RequestCancel? || step.IdleTick? || step.DropMap?
    ensures Rested(s, lane)
  {
  }

  lemma {:induction false} MoveRests(s: System, step: Step, lane: nat)
    requires Inv(s) && Enabled(s, step) && Rested(Apply(s, step), lane)
    requires step.Receive? || step.TakeLock? || step.LastLook? || step.Disconnect?
    ensures Rested(s, lane)
  {
  }

  lemma {:induction false} RestedBefore(s: System, step: Step, lane: nat)
    requires Inv(s) && Enabled(s, step) && !(step.Return? && step.lane == lane)
    requires Rested(Apply(s, step), lane)
    ensures Rested(s, lane)
  {
    if step.Admit? || step.Connect? || step.Return? {
      ExecutionRests(s, step, lane);
    } else if step.Dispatch? || step.RequestCancel? || step.IdleTick? || step.DropMap? {
      QuietRests(s, step, lane);
    } else {
      MoveRests(s, step, lane);
    }
  }

  /**
   * Under every interleaving: a live lane holds a connection exactly as long as no run on it returned anything but
   * Ok(true), no idle tick found it dead and no cancel of its opener retired it; and while the lane is not running a
   * command, the last run on it returned Ok(true).
   */
  lemma {:induction false} ConnectionKeptExactly(steps: seq<Step>, s: System, lane: nat)
    requires Reaches(START, steps, s) && Alive(s, lane)
    ensures forall opener: nat :: s.lanes[lane].connection == Some(Connection(opener)) <==>
                                  exists i: nat :: KeptSince(steps, lane, opener, i)
    ensures Rested(s, lane) ==> exists j: nat :: LastRanClean(steps, lane, j)
  {
    ReachesIsPlay(steps, s);
    forall opener: nat ensures s.lanes[lane].connection == Some(Connection(opener)) <==>
                               exists i: nat :: KeptSince(steps, lane, opener, i)
    {
      HistoryKeeps(steps, lane, opener);
    }
    if Rested(s, lane) {
      RestsClean(steps, lane);
    }
  }

  // ---------------------------------------------------------------- the end of an idle lane

  /**
   * A lane that has been idle for long and finds its queue still empty under the map lock ends: its connection closes and
   * the map no longer names it.
   */
  lemma {:induction false} IdleLaneEnds(s: System, lane: nat, alive: bool)
    requires At(s, lane, Waiting) && s.lanes[lane].queue == [] && s.lock.None?
    ensures var idle := IdleTick(lane, alive, true);
            && Enabled(s, idle) && Enabled(Apply(s, idle), TakeLock(lane))
            && var locked := Apply(Apply(s, idle), TakeLock(lane));
               && Enabled(locked, LastLook(lane))
               && var t := Apply(locked, LastLook(lane));
                  && At(t, lane, Ended) && t.lanes[lane].connection.None? && t.lock.None?
                  && t.entry != Some(lane) && (s.entry != Some(lane) ==> t.entry == s.entry)
                  && t.jobs == s.jobs && t.alive == s.alive
  {
  }
}

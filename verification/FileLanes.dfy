/** File lanes: the hand-off of commands to a worker that may be about to stop, and the life of a job. */
module FileLanes {
  import opened Prelude

  // ---------------------------------------------------------------- jobs

  /** Job states 2, 6, 5 and 4. */
  datatype Status = Running | Complete | Interrupted | Failed

  datatype ErrorKind = Cancelled | Denied | Late | Other

  datatype Job = Job(status: Status, cancelled: bool)

  /** What else a job's check sees: a revoked permission, a cancelled connect epoch, a passed deadline. */
  datatype Surroundings = Surroundings(denied: bool, epochCancelled: bool, late: bool)

  function Check(j: Job, around: Surroundings): Option<ErrorKind> {
    if around.denied then Some(Denied)
    else if j.cancelled || around.epochCancelled then Some(Cancelled)
    else if around.late then Some(Late)
    else None
  }

  function Cancel(j: Job): Job {
    if j.status.Running? then j.(cancelled := true) else j
  }

  /** finish: only the first call decides, and success is checked once more. */
  function Finish(j: Job, result: Option<ErrorKind>, around: Surroundings): Job {
    if !j.status.Running? then j
    else
      var verdict := if result.Some? then result else Check(j, around);
      j.(status := match verdict
                   case None => Complete
                   case Some(Cancelled) => Interrupted
                   case Some(_) => Failed)
  }

  datatype RunResult = RunOk(keep: bool) | RunErr(kind: ErrorKind)

  /** A connection, with the command it was opened for; that command's reservation stays with it. */
  datatype Connection = Connection(opener: nat)

  /** What one execution meets: at the check before it, from the backend's connect and run, and at the end. */
  datatype Answers = Answers(before: Surroundings, connects: Option<ErrorKind>, runs: RunResult, after: Surroundings)

  /**
   * What an execution leaves of a usable connection and its command's job. The connection is kept after a run that
   * returned Ok(true), and untouched when the job was refused before anything was sent.
   */
  function Executed(command: nat, j: Job, usable: Option<Connection>, answers: Answers): (Option<Connection>, Job) {
    var refused := Check(j, answers.before);
    if refused.Some? then (usable, Finish(j, refused, answers.after))
    else if usable.None? && answers.connects.Some? then (None, Finish(j, answers.connects, answers.after))
    else
      var open := if usable.Some? then usable else Some(Connection(command));
      (if answers.runs == RunOk(true) then open else None,
       Finish(j, if answers.runs.RunErr? then Some(answers.runs.kind) else None, answers.after))
  }

  /** A job as the object its threads share; each method runs under the status lock. */
  class TransferJob {
    var status: Status
    var cancelled: bool

    function View(): Job
      reads this
    {
      Job(status, cancelled)
    }

    constructor ()
      ensures View() == Job(Running, false)
    {
      status := Running;
      cancelled := false;
    }

    method RequestCancel()
      modifies this`cancelled
      ensures View() == Cancel(old(View()))
    {
      if !status.Running? {
        return;
      }
      cancelled := true;
    }

    method CheckNow(around: Surroundings) returns (error: Option<ErrorKind>)
      ensures error == Check(View(), around)
    {
      if around.denied {
        return Some(Denied);
      }
      if cancelled || around.epochCancelled {
        return Some(Cancelled);
      }
      error := if around.late then Some(Late) else None;
    }

    method Conclude(result: Option<ErrorKind>, around: Surroundings)
      modifies this`status
      ensures View() == Finish(old(View()), result, around)
    {
      if !status.Running? {
        return;
      }
      var verdict := result;
      if verdict.None? {
        verdict := CheckNow(around);
      }
      match verdict {
        case None => status := Complete;
        case Some(Cancelled) => status := Interrupted;
        case Some(_) => status := Failed;
      }
    }

    /** execute, on this command's job with what the backend will answer. */
    method Execute(command: nat, open: Option<Connection>, openCancelled: bool, answers: Answers)
      returns (kept: Option<Connection>)
      modifies this`status
      ensures (kept, View()) == Executed(command, old(View()), if openCancelled then None else open, answers)
      ensures old(status).Running? ==> !status.Running?
    {
      kept := if openCancelled then None else open;
      var refused := CheckNow(answers.before);
      if refused.Some? {
        Conclude(refused, answers.after);
        return;
      }
      if kept.None? {
        if answers.connects.Some? {
          Conclude(answers.connects, answers.after);
          return;
        }
        kept := Some(Connection(command));
      }
      var keep := answers.runs == RunOk(true);
      Conclude(if answers.runs.RunErr? then Some(answers.runs.kind) else None, answers.after);
      if !keep {
        kept := None;
      }
    }
  }

  // ---------------------------------------------------------------- lanes of one kind

  datatype Pc = Waiting | WantsLock | HoldsLock | Admitting(command: nat) | Connecting(command: nat) | Ended

  datatype Lane = Lane(queue: seq<nat>, pc: Pc, connection: Option<Connection>)

  datatype System = System(
    entry: Option<nat>,          // the lane the map names, by generation
    lock: Option<nat>,           // the lane holding the map lock; every other critical section is one step
    lanes: map<nat, Lane>,
    generation: nat,
    alive: bool,                 // the session still owns the map
    jobs: map<nat, Job>,
    dispatched: seq<nat>,        // commands accepted, in order
    started: seq<nat>)           // commands taken out of a queue, in order

  const START := System(None, None, map[], 0, true, map[], [], [])

  datatype Step =
    | Dispatch(command: nat, spawns: bool, after: Surroundings)
    | RequestCancel(command: nat)
    | Receive(lane: nat)
    | IdleTick(lane: nat, alive: bool, longIdle: bool)
    | TakeLock(lane: nat)
    | LastLook(lane: nat)
    | Admit(lane: nat, openCancelled: bool, before: Surroundings, after: Surroundings)
    | Connect(lane: nat, error: Option<ErrorKind>, after: Surroundings)
    | Return(lane: nat, result: RunResult, after: Surroundings)
    | Disconnect(lane: nat)
    | DropMap

  predicate At(s: System, lane: nat, pc: Pc) {
    lane in s.lanes && s.lanes[lane].pc == pc
  }

  predicate Enabled(s: System, step: Step) {
    match step
    case Dispatch(command, _, _) =>
      s.alive && s.lock.None? && command !in s.jobs && (s.entry.Some? ==> s.entry.value in s.lanes)
    case RequestCancel(command) => command in s.jobs
    case Receive(lane) => At(s, lane, Waiting) && s.lanes[lane].queue != []
    case IdleTick(lane, _, _) => At(s, lane, Waiting) && s.lanes[lane].queue == []
    case TakeLock(lane) => At(s, lane, WantsLock) && s.lock.None?
    case LastLook(lane) => At(s, lane, HoldsLock)
    case Admit(lane, _, _, _) => lane in s.lanes && s.lanes[lane].pc.Admitting? && s.lanes[lane].pc.command in s.jobs
    case Connect(lane, _, _) =>
      lane in s.lanes && s.lanes[lane].pc.Connecting? && s.lanes[lane].connection.None? && s.lanes[lane].pc.command in s.jobs
    case Return(lane, _, _) =>
      lane in s.lanes && s.lanes[lane].pc.Connecting? && s.lanes[lane].connection.Some? && s.lanes[lane].pc.command in s.jobs
    case Disconnect(lane) => At(s, lane, Waiting) && s.lanes[lane].queue == [] && !s.alive
    case DropMap => s.alive && s.lock.None?
  }

  function WithLane(s: System, lane: nat, l: Lane): System {
    s.(lanes := s.lanes[lane := l])
  }

  function Conclude(s: System, command: nat, result: Option<ErrorKind>, around: Surroundings): System
    requires command in s.jobs
  {
    s.(jobs := s.jobs[command := Finish(s.jobs[command], result, around)])
  }

  /** Takes the next command of a lane's queue into execution. */
  function TakeCommand(s: System, lane: nat): System
    requires lane in s.lanes && s.lanes[lane].queue != []
  {
    var l := s.lanes[lane];
    WithLane(s, lane, Lane(l.queue[1..], Admitting(l.queue[0]), l.connection)).(started := s.started + [l.queue[0]])
  }

  function Apply(s: System, step: Step): System
    requires Enabled(s, step)
  {
    match step
    case Dispatch(command, spawns, after) =>
      var known := s.(jobs := s.jobs[command := Job(Running, false)]);
      if s.entry.Some? then
        var l := s.lanes[s.entry.value];
        WithLane(known, s.entry.value, l.(queue := l.queue + [command])).(dispatched := s.dispatched + [command])
      else if !spawns then Conclude(known, command, Some(Other), after)
      else
        var g := s.generation + 1;
        WithLane(known, g, Lane([command], Waiting, None))
          .(entry := Some(g), generation := g, dispatched := s.dispatched + [command])
    case RequestCancel(command) => s.(jobs := s.jobs[command := Cancel(s.jobs[command])])
    case Receive(lane) => TakeCommand(s, lane)
    case IdleTick(lane, alive, longIdle) =>
      var l := s.lanes[lane];
      WithLane(s, lane, Lane(l.queue, if longIdle then WantsLock else Waiting, if alive then l.connection else None))
    case TakeLock(lane) => WithLane(s, lane, s.lanes[lane].(pc := HoldsLock)).(lock := Some(lane))
    case LastLook(lane) =>
      if s.lanes[lane].queue != [] then TakeCommand(s, lane).(lock := None)
      else
        WithLane(s, lane, s.lanes[lane].(pc := Ended, connection := None))
          .(lock := None, entry := if s.entry == Some(lane) then None else s.entry)
    case Admit(lane, openCancelled, before, after) =>
      var l := s.lanes[lane];
      var command := l.pc.command;
      var usable := if openCancelled then None else l.connection;
      var refused := Check(s.jobs[command], before);
      if refused.Some? then WithLane(Conclude(s, command, refused, after), lane, Lane(l.queue, Waiting, usable))
      else WithLane(s, lane, Lane(l.queue, Connecting(command), usable))
    case Connect(lane, error, after) =>
      var l := s.lanes[lane];
      if error.Some? then WithLane(Conclude(s, l.pc.command, error, after), lane, Lane(l.queue, Waiting, None))
      else WithLane(s, lane, l.(connection := Some(Connection(l.pc.command))))
    case Return(lane, result, after) =>
      var l := s.lanes[lane];
      var kept := if result == RunOk(true) then l.connection else None;
      WithLane(Conclude(s, l.pc.command, if result.RunErr? then Some(result.kind) else None, after),
               lane, Lane(l.queue, Waiting, kept))
    case Disconnect(lane) => WithLane(s, lane, s.lanes[lane].(pc := Ended, connection := None))
    case DropMap => s.(entry := None, alive := false)
  }

  // ---------------------------------------------------------------- the invariant

  predicate Executing(pc: Pc) {
    pc.Admitting? || pc.Connecting?
  }

  /** Only the newest lane can hold or run commands. */
  ghost predicate OneLane(s: System) {
    && (forall g :: g in s.lanes ==> 1 <= g <= s.generation)
    && (s.generation > 0 ==> s.generation in s.lanes)
    && (forall g :: g in s.lanes && g != s.generation ==> s.lanes[g].pc == Ended)
    && (forall g :: g in s.lanes && s.lanes[g].pc == Ended ==> s.lanes[g].queue == [])
  }

  /** While the session lives, the map names the newest lane unless that lane has ended. */
  ghost predicate MapCurrent(s: System) {
    && (s.entry.Some? ==> s.alive && s.entry.value == s.generation && s.generation in s.lanes &&
                          s.lanes[s.generation].pc != Ended)
    && (s.alive && s.entry.None? && s.generation in s.lanes ==> s.lanes[s.generation].pc == Ended)
    && (forall g :: g in s.lanes ==> (s.lanes[g].pc == HoldsLock <==> s.lock == Some(g)))
    && (s.lock.Some? ==> s.lock.value in s.lanes)
  }

  function Queued(s: System): seq<nat> {
    if s.generation in s.lanes then s.lanes[s.generation].queue else []
  }

  /** What was dispatched is what was started, then what the newest lane has queued: nothing lost, nothing reordered. */
  ghost predicate Ordered(s: System) {
    s.dispatched == s.started + Queued(s)
  }

  ghost predicate JobsKnown(s: System) {
    && (forall c :: c in s.dispatched ==> c in s.jobs)
    && (forall c :: c in s.jobs ==> (s.jobs[c].cancelled ==> s.jobs[c].status != Complete))
  }

  /** A started command has a settled job, unless its lane is still executing it; that one is the last started. */
  ghost predicate StartedSettled(s: System) {
    forall i | 0 <= i < |s.started| :: s.started[i] in s.jobs &&
      (!s.jobs[s.started[i]].status.Running? ||
       (i == |s.started| - 1 && s.generation in s.lanes && Executing(s.lanes[s.generation].pc)
        && s.lanes[s.generation].pc.command == s.started[i]))
  }

  ghost predicate RunsLastStarted(s: System) {
    s.generation in s.lanes && Executing(s.lanes[s.generation].pc) ==>
      s.started != [] && s.started[|s.started| - 1] == s.lanes[s.generation].pc.command
  }

  ghost predicate Inv(s: System) {
    OneLane(s) && MapCurrent(s) && Ordered(s) && JobsKnown(s) && StartedSettled(s) && RunsLastStarted(s)
  }

  // ---------------------------------------------------------------- steps

  lemma {:induction false} DispatchKeepsInv(s: System, command: nat, spawns: bool, after: Surroundings)
    requires Inv(s) && Enabled(s, Dispatch(command, spawns, after))
    ensures Inv(Apply(s, Dispatch(command, spawns, after)))
  {
    var t := Apply(s, Dispatch(command, spawns, after));
    if s.entry.Some? {
      Associate(s.started, Queued(s), [command]);
      assert Queued(t) == Queued(s) + [command];
    } else if spawns {
      assert Queued(s) == [] && s.started + [] == s.started;
      assert Queued(t) == [command];
    } else {
      assert t == s.(jobs := t.jobs);
    }
  }

  /** A command that leaves the queue is the next of those dispatched. */
  lemma {:induction false} TakeKeepsOrder(started: seq<nat>, queue: seq<nat>)
    requires queue != []
    ensures started + queue == started + [queue[0]] + queue[1..] && queue[0] in started + queue
  {
    assert queue == [queue[0]] + queue[1..];
    Associate(started, [queue[0]], queue[1..]);
    assert (started + queue)[|started|] == queue[0];
  }

  lemma {:induction false} TakeKeepsInv(s: System, lane: nat, locked: bool)
    requires Inv(s) && lane in s.lanes && s.lanes[lane].queue != []
    requires if locked then s.lanes[lane].pc == HoldsLock else s.lanes[lane].pc == Waiting
    ensures Inv(if locked then TakeCommand(s, lane).(lock := None) else TakeCommand(s, lane))
  {
    assert lane == s.generation;
    var q := s.lanes[lane].queue;
    TakeKeepsOrder(s.started, q);
    var t := TakeCommand(s, lane);
    assert t.jobs == s.jobs && Queued(t) == q[1..];
  }

  lemma {:induction false} ConcludeJobs(s: System, command: nat, result: Option<ErrorKind>, around: Surroundings)
    requires JobsKnown(s) && command in s.jobs
    ensures JobsKnown(Conclude(s, command, result, around))
    ensures !Conclude(s, command, result, around).jobs[command].status.Running?
    ensures forall c :: c in s.jobs && !s.jobs[c].status.Running? ==>
              Conclude(s, command, result, around).jobs[c] == s.jobs[c]
  {
  }

  /** The end of an execution: the job is settled and the lane waits again. */
  lemma {:induction false} SettleKeepsInv(s: System, lane: nat, result: Option<ErrorKind>, around: Surroundings,
                                          kept: Option<Connection>)
    requires Inv(s) && lane in s.lanes && Executing(s.lanes[lane].pc) && s.lanes[lane].pc.command in s.jobs
    ensures Inv(WithLane(Conclude(s, s.lanes[lane].pc.command, result, around), lane,
                         Lane(s.lanes[lane].queue, Waiting, kept)))
  {
    assert lane == s.generation;
    ConcludeJobs(s, s.lanes[lane].pc.command, result, around);
  }

  lemma {:induction false} IdleKeepsInv(s: System, step: Step)
    requires Inv(s) && Enabled(s, step) && step.IdleTick?
    ensures Inv(Apply(s, step))
  {
    assert step.lane == s.generation;
    var t := Apply(s, step);
    assert Queued(t) == Queued(s) && t.jobs == s.jobs && t.started == s.started;
  }

  lemma {:induction false} LockKeepsInv(s: System, step: Step)
    requires Inv(s) && Enabled(s, step) && step.TakeLock?
    ensures Inv(Apply(s, step))
  {
    assert step.lane == s.generation;
    var t := Apply(s, step);
    assert Queued(t) == Queued(s) && t.jobs == s.jobs && t.started == s.started;
  }

  lemma {:induction false} DisconnectKeepsInv(s: System, step: Step)
    requires Inv(s) && Enabled(s, step) && step.Disconnect?
    ensures Inv(Apply(s, step))
  {
    assert step.lane == s.generation;
    var t := Apply(s, step);
    assert Queued(t) == Queued(s) && t.jobs == s.jobs && t.started == s.started;
  }

  lemma {:induction false} LastLookKeepsInv(s: System, lane: nat)
    requires Inv(s) && Enabled(s, LastLook(lane))
    ensures Inv(Apply(s, LastLook(lane)))
  {
    assert lane == s.generation;
    if s.lanes[lane].queue != [] {
      TakeKeepsInv(s, lane, true);
    } else {
      var t := Apply(s, LastLook(lane));
      assert Queued(t) == Queued(s) && t.jobs == s.jobs && t.started == s.started;
    }
  }

  lemma {:induction false} AdmitKeepsInv(s: System, step: Step)
    requires Inv(s) && Enabled(s, step) && step.Admit?
    ensures Inv(Apply(s, step))
  {
    var lane := step.lane;
    assert lane == s.generation;
    var l := s.lanes[lane];
    var usable := if step.openCancelled then None else l.connection;
    var refused := Check(s.jobs[l.pc.command], step.before);
    if refused.Some? {
      SettleKeepsInv(s, lane, refused, step.after, usable);
    } else {
      var t := Apply(s, step);
      assert t == WithLane(s, lane, Lane(l.queue, Connecting(l.pc.command), usable));
      assert Queued(t) == Queued(s);
    }
  }

  lemma {:induction false} ConnectKeepsInv(s: System, step: Step)
    requires Inv(s) && Enabled(s, step) && step.Connect?
    ensures Inv(Apply(s, step))
  {
    assert step.lane == s.generation;
    if step.error.Some? {
      SettleKeepsInv(s, step.lane, step.error, step.after, None);
    } else {
      assert Queued(Apply(s, step)) == Queued(s);
    }
  }

  lemma {:induction false} StepKeepsInv(s: System, step: Step)
    requires Inv(s) && Enabled(s, step)
    ensures Inv(Apply(s, step))
  {
    match step
    case Dispatch(command, spawns, after) => DispatchKeepsInv(s, command, spawns, after);
    case RequestCancel(command) =>
    case Receive(lane) => TakeKeepsInv(s, lane, false);
    case LastLook(lane) => LastLookKeepsInv(s, lane);
    case Admit(_, _, _, _) => AdmitKeepsInv(s, step);
    case Connect(_, _, _) => ConnectKeepsInv(s, step);
    case Return(lane, result, after) =>
      SettleKeepsInv(s, lane, if result.RunErr? then Some(result.kind) else None, after,
                     if result == RunOk(true) then s.lanes[lane].connection else None);
    case DropMap =>
    case IdleTick(_, _, _) => IdleKeepsInv(s, step);
    case TakeLock(_) => LockKeepsInv(s, step);
    case Disconnect(_) => DisconnectKeepsInv(s, step);
  }

  // ---------------------------------------------------------------- every interleaving

  ghost predicate Reaches(s: System, steps: seq<Step>, end: System)
    decreases |steps|
  {
    if steps == [] then s == end
    else Enabled(s, steps[0]) && Reaches(Apply(s, steps[0]), steps[1..], end)
  }

  lemma {:induction false} RunKeepsInv(s: System, steps: seq<Step>, end: System)
    requires Inv(s) && Reaches(s, steps, end)
    ensures Inv(end)
    decreases |steps|
  {
    if steps != [] {
      StepKeepsInv(s, steps[0]);
      RunKeepsInv(Apply(s, steps[0]), steps[1..], end);
    }
  }

  lemma {:induction false} OneStep(s: System, step: Step)
    requires Enabled(s, step)
    ensures Reaches(s, [step], Apply(s, step))
  {
    assert [step][1..] == [];
  }

  lemma {:induction false} StepThen(s: System, step: Step, steps: seq<Step>, end: System)
    requires Enabled(s, step) && Reaches(Apply(s, step), steps, end)
    ensures Reaches(s, [step] + steps, end)
  {
    assert ([step] + steps)[1..] == steps;
  }

  /** The lane and its command's job after an execution; nothing else changes. */
  function AfterExecution(s: System, lane: nat, openCancelled: bool, answers: Answers): System
    requires lane in s.lanes && Executing(s.lanes[lane].pc) && s.lanes[lane].pc.command in s.jobs
  {
    var l := s.lanes[lane];
    var (kept, job) := Executed(l.pc.command, s.jobs[l.pc.command], if openCancelled then None else l.connection, answers);
    WithLane(s.(jobs := s.jobs[l.pc.command := job]), lane, Lane(l.queue, Waiting, kept))
  }

  /** From a lane that connects or runs a command, its remaining steps settle the job as an execution does. */
  lemma {:induction false} RunIsItsSteps(s: System, lane: nat, answers: Answers) returns (steps: seq<Step>)
    requires lane in s.lanes && s.lanes[lane].pc.Connecting? && s.lanes[lane].pc.command in s.jobs
    requires Check(s.jobs[s.lanes[lane].pc.command], answers.before).None?
    ensures Reaches(s, steps, AfterExecution(s, lane, false, answers))
  {
    var connect, done := Connect(lane, answers.connects, answers.after), Return(lane, answers.runs, answers.after);
    var end := AfterExecution(s, lane, false, answers);
    if s.lanes[lane].connection.Some? {
      OneStep(s, done);
      assert Apply(s, done) == end;
      steps := [done];
    } else if answers.connects.Some? {
      OneStep(s, connect);
      assert Apply(s, connect) == end;
      steps := [connect];
    } else {
      var connected := Apply(s, connect);
      OneStep(connected, done);
      assert Apply(connected, done).lanes == end.lanes;
      assert Apply(connected, done) == end;
      StepThen(s, connect, [done], end);
      steps := [connect] + [done];
    }
  }

  /** An uninterrupted run of a lane's own steps is one execution: the interleaved steps and the method agree. */
  lemma {:induction false} ExecutionIsItsSteps(s: System, lane: nat, openCancelled: bool, answers: Answers)
    returns (steps: seq<Step>)
    requires lane in s.lanes && s.lanes[lane].pc.Admitting? && s.lanes[lane].pc.command in s.jobs
    ensures Reaches(s, steps, AfterExecution(s, lane, openCancelled, answers))
  {
    var admit := Admit(lane, openCancelled, answers.before, answers.after);
    var end, next := AfterExecution(s, lane, openCancelled, answers), Apply(s, admit);
    if Check(s.jobs[s.lanes[lane].pc.command], answers.before).Some? {
      OneStep(s, admit);
      assert next == end;
      steps := [admit];
    } else {
      var rest := RunIsItsSteps(next, lane, answers);
      assert AfterExecution(next, lane, false, answers).lanes == end.lanes;
      assert AfterExecution(next, lane, false, answers) == end;
      StepThen(s, admit, rest, end);
      steps := [admit] + rest;
    }
  }

  /** Where a dispatched command can be: waiting or executing on a lane that still runs, or with its job settled. */
  ghost predicate Accounted(s: System, command: nat) {
    && command in s.jobs
    && (!s.jobs[command].status.Running? ||
        (s.generation in s.lanes && s.lanes[s.generation].pc != Ended &&
         (command in s.lanes[s.generation].queue ||
          (Executing(s.lanes[s.generation].pc) && s.lanes[s.generation].pc.command == command))))
  }

  /**
   * Under every interleaving of dispatches, cancels, idle timeouts and the session's end: no dispatched command is
   * lost, commands start one at a time in dispatch order, and no cancelled job completes.
   */
  lemma {:induction false} NoCommandLost(steps: seq<Step>, s: System)
    requires Reaches(START, steps, s)
    ensures forall c :: c in s.dispatched ==> Accounted(s, c)
    ensures s.started <= s.dispatched
    ensures forall g, h :: g in s.lanes && h in s.lanes && Executing(s.lanes[g].pc) && Executing(s.lanes[h].pc) ==> g == h
    ensures forall c :: c in s.jobs && s.jobs[c].cancelled ==> s.jobs[c].status != Complete
    ensures forall g :: g in s.lanes && s.lanes[g].pc == Ended ==> s.lanes[g].queue == []
  {
    RunKeepsInv(START, steps, s);
    forall c | c in s.dispatched ensures Accounted(s, c) {
      if c in s.started {
        var i :| 0 <= i < |s.started| && s.started[i] == c;
      } else {
        assert c in Queued(s);
      }
    }
  }

  /** A job leaves the running state once: from then on no step changes its status. */
  lemma {:induction false} SettledJobIsFinal(s: System, step: Step, command: nat)
    requires Inv(s) && Enabled(s, step) && command in s.jobs && !s.jobs[command].status.Running?
    ensures command in Apply(s, step).jobs && Apply(s, step).jobs[command] == s.jobs[command]
  {
  }

  /** While the session lives, a command dispatched now is either queued on a running lane or settled as failed. */
  lemma {:induction false} DispatchReachesALane(steps: seq<Step>, s: System, command: nat, spawns: bool,
                                                after: Surroundings)
    requires Reaches(START, steps, s) && Enabled(s, Dispatch(command, spawns, after))
    ensures var t := Apply(s, Dispatch(command, spawns, after));
            if s.entry.Some? || spawns then
              t.entry.Some? && t.lanes[t.entry.value].pc != Ended && command in t.lanes[t.entry.value].queue
            else t.jobs[command].status == Failed && t.dispatched == s.dispatched
  {
    RunKeepsInv(START, steps, s);
    var t := Apply(s, Dispatch(command, spawns, after));
    if s.entry.Some? {
      assert t.lanes[s.entry.value].queue == s.lanes[s.entry.value].queue + [command];
    } else if spawns {
      assert t.lanes[s.generation + 1].queue == [command];
    }
  }
}

/**
 What one step of a workflow does, until when a resting workflow rests, and what its wake-up time is: said
 without the run loop, of every run, and of every state that workers can reach.
 */
module WorkflowTiming {
  import opened Wrappers
  import opened Json
  import opened WorkflowModel
  import opened WorkflowSignals
  import opened WorkflowRefinement
  import opened WorkflowRuns
  import opened WorkflowProtocol

  // ----- a run that comes too early -----

  /** A sleeping workflow sleeps on: a run before its wake-up changes nothing. */
  lemma EarlySleepRun(reg: Registry, clock: nat -> int, db: Db, id: string, tick: nat, turns: nat)
    requires turns > 0 && id in db.instances && db.instances[id].status == Sleeping
    requires db.instances[id].wakeAt.Some? && clock(tick) < db.instances[id].wakeAt.value
    ensures RunUntilSuspended(reg, clock, db, id, tick, turns) == Finished(db, tick + 1)
  {
  }

  /** From its wake-up on it is run, as the running workflow it was. */
  lemma DueSleepRun(reg: Registry, clock: nat -> int, db: Db, id: string, tick: nat, turns: nat)
    requires turns > 0 && id in db.instances && db.instances[id].status == Sleeping
    requires db.instances[id].wakeAt.Some? && clock(tick) >= db.instances[id].wakeAt.value
    ensures RunUntilSuspended(reg, clock, db, id, tick, turns)
         == RunUntilSuspended(reg, clock, PutRow(db, id, db.instances[id].(status := Running, wakeAt := None)), id,
                              tick + 1, turns - 1)
  {
  }

  /** The wait that a row waits at. */
  ghost predicate WaitsAt(reg: Registry, row: Row, step: Step) {
    && row.status == WaitingSignal && row.workflow in reg.workflows
    && row.stepIndex < |reg.workflows[row.workflow].steps|
    && step == reg.workflows[row.workflow].steps[row.stepIndex] && step.WaitStep?
  }

  /** A waiting workflow waits on: without a signal, a run before its deadline changes nothing. */
  lemma EarlyWaitRun(reg: Registry, clock: nat -> int, db: Db, id: string, tick: nat, turns: nat, step: Step)
    requires turns > 0 && id in db.instances && WaitsAt(reg, db.instances[id], step)
    requires forall j: nat :: !PendingAt(db.signals, id, step.signal, j)
    requires db.instances[id].wakeAt.Some? ==> clock(tick) < db.instances[id].wakeAt.value
    ensures RunUntilSuspended(reg, clock, db, id, tick, turns)
         == if step.timeoutMs(db.instances[id].input, db.instances[id].state).Threw? then StepThrew else Finished(db, tick + 1)
  {
  }

  /** Without a signal, and from its deadline on, it passes the wait the way its timeout says; a failing timeout throws. */
  lemma DueWaitTurn(reg: Registry, clock: nat -> int, db: Db, id: string, tick: nat, step: Step)
    requires id in db.instances && WaitsAt(reg, db.instances[id], step)
    requires forall j: nat :: !PendingAt(db.signals, id, step.signal, j)
    requires db.instances[id].wakeAt.Some? && clock(tick) >= db.instances[id].wakeAt.value
    requires step.timeoutMs(db.instances[id].input, db.instances[id].state).Ok?
    ensures var row := db.instances[id];
      match OneTurn(reg, clock, db, id, tick)
      case Again(after, t) =>
        && after.signals == db.signals && after.jobs == db.jobs && t == tick + 1
        && id in after.instances && after.instances[id].status == Running && after.instances[id].wakeAt.None?
        && after.instances[id].stepIndex == row.stepIndex + 1
        && (step.onTimeout.Continue? ==> after.instances[id].state == row.state)
        && (step.onTimeout.Update? ==> step.onTimeout.f(row.input, row.state) == Ok(after.instances[id].state))
      case Throw => step.onTimeout.Fail? || (step.onTimeout.Update? && step.onTimeout.f(row.input, row.state).Threw?)
      case Stop(_, _) => false
    ensures step.onTimeout.Fail? ==> OneTurn(reg, clock, db, id, tick).Throw?
  {
  }

  /**
   An action passes exactly if its arguments, the action itself and its continuation all go through, one fed by
   the other; nothing else moves.
   */
  lemma ActionTurn(reg: Registry, clock: nat -> int, db: Db, id: string, tick: nat, step: Step)
    requires id in db.instances && db.instances[id].status == Running && db.instances[id].workflow in reg.workflows
    requires var row := db.instances[id];
      var steps := reg.workflows[row.workflow].steps;
      row.stepIndex < |steps| && step == steps[row.stepIndex] && step.ActionStep?
    ensures forall state ::
      (OneTurn(reg, clock, db, id, tick)
        == Again(PutRow(db, id, Passed(reg.workflows[db.instances[id].workflow].steps, db.instances[id], state)), tick))
      <==> Yields(reg, step, db.instances[id], state)
    ensures OneTurn(reg, clock, db, id, tick).Throw? <==> forall state :: !Yields(reg, step, db.instances[id], state)
  {
    var row := db.instances[id];
    forall state ensures Yields(reg, step, row, state) <==> RunAction(reg, step, row.input, row.state) == Ok(state) {
      if RunAction(reg, step, row.input, row.state) == Ok(state) {
        var args := step.args(row.input, row.state).value;
        var result := reg.actions[step.action](args).value;
        assert step.onResult(row.input, result, row.state) == Ok(state);
      }
    }
    if RunAction(reg, step, row.input, row.state).Ok? {
      assert Yields(reg, step, row, RunAction(reg, step, row.input, row.state).value);
    }
    forall a, b | PutRow(db, id, a) == PutRow(db, id, b) ensures a == b {
      assert PutRow(db, id, a).instances[id] == a && PutRow(db, id, b).instances[id] == b;
    }
  }

  /** The arguments go into the action, and its result, with input and state, into the continuation. */
  ghost predicate Yields(reg: Registry, step: Step, row: Row, state: Json)
    requires step.ActionStep?
  {
    exists args, result ::
      && step.args(row.input, row.state) == Ok(args) && step.action in reg.actions
      && reg.actions[step.action](args) == Ok(result)
      && step.onResult(row.input, result, row.state) == Ok(state)
  }

  /** The row at the next step, running, with a new state. */
  function Passed(steps: seq<Step>, row: Row, state: Json): Row {
    var i := row.stepIndex + 1;
    Row(row.workflow, Running, row.input, state, if i < |steps| then Some(steps[i].id) else None, i, None, row.lease)
  }

  // ----- what a wake-up time is -----

  /**
   A row that rests does so as its step asked: its wake-up is the delay, or the timeout, after a clock reading
   between `from` and `to`; the last job is available the same time after the next reading.
   */
  ghost predicate AsAsked(reg: Registry, db: Db, id: string, clock: nat -> int, from: nat, to: nat)
    requires id in db.instances
  {
    var row := db.instances[id];
    row.status == Sleeping || row.status == WaitingSignal ==>
      && row.workflow in reg.workflows
      && match AskedDelay(reg.workflows[row.workflow].steps, row)
         case None => row.wakeAt.None?
         case Some(delay) => exists k :: from <= k && k + 1 < to && RestsFrom(db.jobs, id, row, clock, k, delay)
  }

  ghost predicate RestsFrom(jobs: seq<Job>, id: string, row: Row, clock: nat -> int, k: nat, delay: int) {
    && row.wakeAt == Some(clock(k) + delay)
    && jobs != [] && jobs[|jobs| - 1] == Job(id, clock(k + 1) + delay, Pending, None)
  }

  /** What the step at which a row rests asks for: a sleep has been passed, a wait not yet. None is no deadline. */
  function AskedDelay(steps: seq<Step>, row: Row): Option<int> {
    if row.status == Sleeping then
      if 0 < row.stepIndex <= |steps| && steps[row.stepIndex - 1].SleepStep? then
        match steps[row.stepIndex - 1].delayMs(row.input, row.state)
        case Ok(ms) => if ms > 0 then Some(ms) else None
        case Threw => None
      else None
    else if row.stepIndex < |steps| && steps[row.stepIndex].WaitStep? then
      match steps[row.stepIndex].timeoutMs(row.input, row.state)
      case Ok(Some(ms)) => Some(Max(0, ms))
      case _ => None
    else None
  }

  lemma TurnRests(reg: Registry, clock: nat -> int, db: Db, id: string, tick: nat)
    requires id in db.instances && RowOk(reg, db, id) && OneTurn(reg, clock, db, id, tick).Stop?
    ensures var turn := OneTurn(reg, clock, db, id, tick);
      && id in turn.db.instances
      && (turn.db.instances[id] == db.instances[id] || AsAsked(reg, turn.db, id, clock, tick, turn.tick))
  {
    var turn := OneTurn(reg, clock, db, id, tick);
    var after := turn.db.instances[id];
    if after != db.instances[id] && after.status != Completed && after.wakeAt.Some? {
      var delay := AskedDelay(reg.workflows[after.workflow].steps, after);
      assert delay.Some? && RestsFrom(turn.db.jobs, id, after, clock, tick, delay.value);
    }
  }

  lemma AskedLater(reg: Registry, db: Db, id: string, clock: nat -> int, from: nat, later: nat, to: nat)
    requires id in db.instances && from <= later && AsAsked(reg, db, id, clock, later, to)
    ensures AsAsked(reg, db, id, clock, from, to)
  {
  }

  /** A run that returns with the row of its workflow changed to a resting one leaves it as its step asked. */
  lemma {:induction false} RunRests(reg: Registry, clock: nat -> int, db: Db, id: string, tick: nat, turns: nat)
    requires RowsOk(reg, db) && id in db.instances
    requires RunUntilSuspended(reg, clock, db, id, tick, turns).Finished?
    ensures var run := RunUntilSuspended(reg, clock, db, id, tick, turns);
      && id in run.db.instances
      && (run.db.instances[id] == db.instances[id] || AsAsked(reg, run.db, id, clock, tick, run.tick))
    decreases turns
  {
    hide OneTurn;
    hide RowOk;
    hide AsAsked;
    assert RowOk(reg, db, id);
    match OneTurn(reg, clock, db, id, tick)
    case Stop(_, _) =>
      TurnRests(reg, clock, db, id, tick);
    case Again(db', tick') =>
      AgainRuns(reg, clock, db, id, tick);
      TurnKeepsRows(reg, clock, db, id, tick, db');
      RunRests(reg, clock, db', id, tick', turns - 1);
      RunningAsked(reg, clock, db, db', id, tick, tick', turns);
  }

  lemma RunningAsked(reg: Registry, clock: nat -> int, db: Db, db': Db, id: string, tick: nat, tick': nat, turns: nat)
    requires turns > 0 && OneTurn(reg, clock, db, id, tick) == Again(db', tick') && tick <= tick'
    requires id in db'.instances && db'.instances[id].status == Running
    requires RunUntilSuspended(reg, clock, db', id, tick', turns - 1).Finished?
    requires var run := RunUntilSuspended(reg, clock, db', id, tick', turns - 1);
      && id in run.db.instances
      && (run.db.instances[id] == db'.instances[id] || AsAsked(reg, run.db, id, clock, tick', run.tick))
    ensures var run := RunUntilSuspended(reg, clock, db, id, tick, turns); AsAsked(reg, run.db, id, clock, tick, run.tick)
  {
    hide OneTurn;
    hide RestsFrom;
    var run := RunUntilSuspended(reg, clock, db', id, tick', turns - 1);
    if run.db.instances[id] != db'.instances[id] { AskedLater(reg, run.db, id, clock, tick, tick', run.tick); }
  }

  // ----- the same for a job, which takes a lease first -----

  lemma LeaseGone(db: Db, id: string, lease: Lease)
    requires id in db.instances && db.instances[id].lease.None?
    ensures ReleaseLease(TakeLease(db, id, lease), id, lease.token) == db
  {
    var leased := TakeLease(db, id, lease);
    assert leased.instances[id := leased.instances[id].(lease := None)] == db.instances;
  }

  /** A job leaves a workflow that is not there, has ended, or is under a lease that has not run out; it runs every other. */
  lemma JobExactly(reg: Registry, clock: nat -> int, db: Db, id: string, token: nat, leaseMs: int)
    ensures var job := RunJob(reg, clock, db, id, token, leaseMs);
      if id !in db.instances || db.instances[id].status.Completed? || db.instances[id].status.Failed?
         || (db.instances[id].lease.Some? && clock(0) < db.instances[id].lease.value.expiresAt)
      then job == Finished(db, 1)
      else
        var leased := db.instances[id].(lease := Some(Lease(token, clock(0) + leaseMs)));
        var run := RunUntilSuspended(reg, clock, db.(instances := db.instances[id := leased]), id, 1, MAX_TURNS);
        && (run.Finished? <==> job.Finished?)
        && (run.Finished? ==>
              && job.tick == run.tick && job.db.signals == run.db.signals && job.db.jobs == run.db.jobs
              && job.db.instances.Keys == run.db.instances.Keys
              && forall other :: other in run.db.instances ==>
                   var row := run.db.instances[other];
                   job.db.instances[other]
                     == if other == id && row.lease.Some? && row.lease.value.token == token then row.(lease := None) else row)
        && (!run.Finished? ==> job == run)
  {
    hide RunUntilSuspended;
  }

  /** A run leaves a workflow that has ended as it is. */
  lemma EndedRun(reg: Registry, clock: nat -> int, db: Db, id: string, tick: nat, turns: nat)
    requires turns > 0 && id in db.instances && (db.instances[id].status.Completed? || db.instances[id].status.Failed?)
    ensures RunUntilSuspended(reg, clock, db, id, tick, turns) == Finished(db, tick)
  {
  }

  /** After its last step a running workflow is completed, and keeps nothing but its input and its state. */
  lemma LastTurn(reg: Registry, clock: nat -> int, db: Db, id: string, tick: nat)
    requires id in db.instances && db.instances[id].workflow in reg.workflows
    requires db.instances[id].status.Running? || db.instances[id].status.WaitingSignal?
    requires |reg.workflows[db.instances[id].workflow].steps| <= db.instances[id].stepIndex
    ensures var row := db.instances[id];
      OneTurn(reg, clock, db, id, tick)
        == Stop(db.(instances := db.instances[id := Row(row.workflow, Completed, row.input, row.state, None,
                                                          |reg.workflows[row.workflow].steps|, None, None)]), tick)
  {
  }

  lemma EarlySleepJob(reg: Registry, clock: nat -> int, db: Db, id: string, token: nat, leaseMs: int)
    requires NoLeases(db) && id in db.instances && db.instances[id].status == Sleeping
    requires db.instances[id].wakeAt.Some? && clock(1) < db.instances[id].wakeAt.value
    ensures RunJob(reg, clock, db, id, token, leaseMs) == Finished(db, 2)
  {
    hide RunUntilSuspended;
    var lease := Lease(token, clock(0) + leaseMs);
    EarlySleepRun(reg, clock, TakeLease(db, id, lease), id, 1, MAX_TURNS);
    LeaseGone(db, id, lease);
  }

  lemma EarlyWaitJob(reg: Registry, clock: nat -> int, db: Db, id: string, token: nat, leaseMs: int, step: Step)
    requires NoLeases(db) && id in db.instances && WaitsAt(reg, db.instances[id], step)
    requires forall j: nat :: !PendingAt(db.signals, id, step.signal, j)
    requires db.instances[id].wakeAt.Some? ==> clock(1) < db.instances[id].wakeAt.value
    ensures var run := RunJob(reg, clock, db, id, token, leaseMs); run == Finished(db, 2) || !run.Finished?
  {
    hide RunUntilSuspended;
    var lease := Lease(token, clock(0) + leaseMs);
    EarlyWaitRun(reg, clock, TakeLease(db, id, lease), id, 1, MAX_TURNS, step);
    LeaseGone(db, id, lease);
  }

  lemma JobRestsAsAsked(reg: Registry, clock: nat -> int, db: Db, id: string, token: nat, leaseMs: int)
    requires RowsOk(reg, db) && NoLeases(db) && id in db.instances && RunJob(reg, clock, db, id, token, leaseMs).Finished?
    ensures var run := RunJob(reg, clock, db, id, token, leaseMs);
      && id in run.db.instances
      && (run.db.instances[id] == db.instances[id] || AsAsked(reg, run.db, id, clock, 1, run.tick))
  {
    hide RunUntilSuspended;
    hide RowOk;
    if Leasable(db, id, clock(0)) {
      var lease := Lease(token, clock(0) + leaseMs);
      var leased := TakeLease(db, id, lease);
      LeaseIrrelevant(reg, db, id, Some(lease));
      RunRests(reg, clock, leased, id, 1, MAX_TURNS);
      RunFrame(reg, clock, leased, id, 1, MAX_TURNS);
      var run := RunUntilSuspended(reg, clock, leased, id, 1, MAX_TURNS);
      if run.db.instances[id] == leased.instances[id] {
        assert ReleaseLease(run.db, id, token).instances[id] == db.instances[id];
      } else {
        AskedReleased(reg, run.db, id, token, clock, 1, run.tick);
      }
    }
  }

  lemma AskedReleased(reg: Registry, db: Db, id: string, token: nat, clock: nat -> int, from: nat, to: nat)
    requires id in db.instances && AsAsked(reg, db, id, clock, from, to)
    ensures var after := ReleaseLease(db, id, token); id in after.instances && AsAsked(reg, after, id, clock, from, to)
  {
    var row, after := db.instances[id], ReleaseLease(db, id, token);
    if row.status == Sleeping || row.status == WaitingSignal {
      var delay := AskedDelay(reg.workflows[row.workflow].steps, row);
      if delay.Some? {
        var k :| from <= k && k + 1 < to && RestsFrom(db.jobs, id, row, clock, k, delay.value);
        assert RestsFrom(after.jobs, id, after.instances[id], clock, k, delay.value);
      }
    }
  }

  // ----- over whole runs of the system -----

  lemma ClockGoesOn(reg: Registry, s: System, a: Action)
    requires Aligned(s) && Enabled(reg, s, a)
    ensures Apply(reg, s, a).clock >= s.clock
  {
    hide RunJob;
    hide WillRun;
  }

  /**
   A sleeping workflow is only moved by a job of its own that reads the clock at or after its wake-up; so the
   clock has got there.
   */
  lemma SleepStays(reg: Registry, s: System, a: Action, id: string)
    requires Inv(reg, s) && Enabled(reg, s, a) && id in s.db.instances && s.db.instances[id].status == Sleeping
    requires s.db.instances[id].wakeAt.Some?
    ensures var t := Apply(reg, s, a);
      && id in t.db.instances
      && (t.db.instances[id] != s.db.instances[id] ==>
            && a.RunClaimed? && s.db.jobs[s.workers[a.worker].job].workflowId == id
            && s.db.instances[id].wakeAt.value <= a.clock(1) <= t.clock)
  {
    hide RunJob;
    hide WillRun;
    hide Awaited;
    hide RowOk;
    RowsMoveForward(reg, s, a, id);
    if a.RunClaimed? {
      var runner := s.db.jobs[s.workers[a.worker].job].workflowId;
      var run := RunJob(reg, a.clock, s.db, runner, a.token, a.leaseMs);
      if run.Finished? {
        JobFrame(reg, a.clock, s.db, runner, a.token, a.leaseMs);
        assert a.clock(1) <= a.clock(run.tick);
        if id == runner && a.clock(1) < s.db.instances[id].wakeAt.value {
          EarlySleepJob(reg, a.clock, s.db, id, a.token, a.leaseMs);
        }
      }
    }
  }

  /** Through any interleaving a sleeping workflow stays exactly as it is until the clock reaches its wake-up. */
  lemma {:induction false} SleepsUntilDue(reg: Registry, s: System, actions: seq<Action>, id: string)
    requires Inv(reg, s) && CanRun(reg, s, actions)
    requires id in s.db.instances && s.db.instances[id].status == Sleeping && s.db.instances[id].wakeAt.Some?
    ensures var t := RunActions(reg, s, actions);
      && s.clock <= t.clock && id in t.db.instances
      && (t.clock < s.db.instances[id].wakeAt.value ==> t.db.instances[id] == s.db.instances[id])
    decreases |actions|
  {
    assert Aligned(s);
    hide Inv;
    hide Apply;
    if actions != [] {
      var next := Apply(reg, s, actions[0]);
      ActionKeepsInv(reg, s, actions[0]);
      ClockGoesOn(reg, s, actions[0]);
      SleepStays(reg, s, actions[0], id);
      RowsKeepMovingForward(reg, next, actions[1..], id);
      ClockRuns(reg, next, actions[1..]);
      if next.db.instances[id] == s.db.instances[id] { SleepsUntilDue(reg, next, actions[1..], id); }
    }
  }

  lemma {:induction false} ClockRuns(reg: Registry, s: System, actions: seq<Action>)
    requires Aligned(s) && CanRun(reg, s, actions)
    ensures s.clock <= RunActions(reg, s, actions).clock
    decreases |actions|
  {
    hide Apply;
    if actions != [] {
      ClockGoesOn(reg, s, actions[0]);
      ClockRuns(reg, Apply(reg, s, actions[0]), actions[1..]);
    }
  }

  // ----- waits over whole runs -----

  lemma {:induction false} RunKeepsSent(
    reg: Registry, clock: nat -> int, db: Db, id: string, tick: nat, turns: nat, other: string, name: string)
    requires RunUntilSuspended(reg, clock, db, id, tick, turns).Finished?
    ensures Sent(RunUntilSuspended(reg, clock, db, id, tick, turns).db.signals, other, name) == Sent(db.signals, other, name)
    decreases turns
  {
    hide OneTurn;
    var turn := OneTurn(reg, clock, db, id, tick);
    TurnFrame(reg, clock, db, id, tick, turn.db);
    if turn.db.signals != db.signals {
      var j: nat :| j < |db.signals| && db.signals[j].workflowId == id && turn.db.signals == Consume(db.signals, j);
      ConsumeKeepsSent(db.signals, j, other, name);
    }
    if turn.Again? { RunKeepsSent(reg, clock, turn.db, id, turn.tick, turns - 1, other, name); }
  }

  lemma JobKeepsSent(
    reg: Registry, clock: nat -> int, db: Db, id: string, token: nat, leaseMs: int, other: string, name: string)
    requires RunJob(reg, clock, db, id, token, leaseMs).Finished?
    ensures Sent(RunJob(reg, clock, db, id, token, leaseMs).db.signals, other, name) == Sent(db.signals, other, name)
  {
    hide RunUntilSuspended;
    if Leasable(db, id, clock(0)) {
      RunKeepsSent(reg, clock, TakeLease(db, id, Lease(token, clock(0) + leaseMs)), id, 1, MAX_TURNS, other, name);
    }
  }

  lemma SentAppend(signals: seq<Signal>, signal: Signal, id: string, name: string)
    ensures Sent(signals + [signal], id, name)
         == Sent(signals, id, name) + if Matches(signal, id, name) then [signal.payload] else []
  {
    assert (signals + [signal])[..|signals|] == signals;
  }

  /** Streams only grow. */
  lemma SentGoesOn(reg: Registry, s: System, a: Action, id: string, name: string)
    requires Aligned(s) && Enabled(reg, s, a)
    ensures Sent(s.db.signals, id, name) <= Sent(Apply(reg, s, a).db.signals, id, name)
  {
    hide RunJob;
    hide WillRun;
    hide Sent;
    match a
    case Send(to, n, payload) => SentAppend(s.db.signals, Signal(to, n, payload, false), id, name);
    case SendRow(c) =>
      SentAppend(s.db.signals, Signal(s.calls[c].id, s.calls[c].name, s.calls[c].payload, false), id, name);
    case RunClaimed(w, clock, token, leaseMs) =>
      var runner := s.db.jobs[s.workers[w].job].workflowId;
      if RunJob(reg, clock, s.db, runner, token, leaseMs).Finished? {
        JobKeepsSent(reg, clock, s.db, runner, token, leaseMs, id, name);
      }
    case _ =>
  }

  lemma {:induction false} SentRuns(reg: Registry, s: System, actions: seq<Action>, id: string, name: string)
    requires Aligned(s) && CanRun(reg, s, actions)
    ensures Sent(s.db.signals, id, name) <= Sent(RunActions(reg, s, actions).db.signals, id, name)
    decreases |actions|
  {
    hide Apply;
    hide Sent;
    if actions != [] {
      SentGoesOn(reg, s, actions[0], id, name);
      SentRuns(reg, Apply(reg, s, actions[0]), actions[1..], id, name);
    }
  }

  /** Nothing sent under the name is unconsumed. */
  ghost predicate NoneFor(db: Db, id: string, name: string) {
    forall j: nat :: !PendingAt(db.signals, id, name, j)
  }

  lemma NoneStays(db: Db, signal: Signal, id: string, name: string)
    requires NoneFor(db, id, name) && Sent(db.signals + [signal], id, name) == Sent(db.signals, id, name)
    ensures forall j: nat :: !PendingAt(db.signals + [signal], id, name, j)
  {
    SentAppend(db.signals, signal, id, name);
    hide Sent;
    forall j: nat ensures !PendingAt(db.signals + [signal], id, name, j) {
      if j < |db.signals| { assert !PendingAt(db.signals, id, name, j); }
    }
  }

  /** Until a signal is sent, or the clock reaches the deadline, a waiting row is left as it is. */
  lemma WaitStays(reg: Registry, s: System, a: Action, id: string, step: Step)
    requires Inv(reg, s) && Enabled(reg, s, a) && id in s.db.instances && WaitsAt(reg, s.db.instances[id], step)
    requires NoneFor(s.db, id, step.signal)
    requires var t := Apply(reg, s, a);
      && Sent(t.db.signals, id, step.signal) == Sent(s.db.signals, id, step.signal)
      && (s.db.instances[id].wakeAt.Some? ==> t.clock < s.db.instances[id].wakeAt.value)
    ensures var t := Apply(reg, s, a);
      id in t.db.instances && t.db.instances[id] == s.db.instances[id] && NoneFor(t.db, id, step.signal)
  {
    assert Aligned(s);
    hide Inv;
    hide Apply;
    hide NoneFor;
    if a.RunClaimed? {
      RunWaits(reg, s, a, id, step);
    } else {
      OthersWait(reg, s, a, id, step.signal);
    }
  }

  lemma OthersWait(reg: Registry, s: System, a: Action, id: string, name: string)
    requires Aligned(s) && Enabled(reg, s, a) && !a.RunClaimed? && id in s.db.instances && NoneFor(s.db, id, name)
    requires Sent(Apply(reg, s, a).db.signals, id, name) == Sent(s.db.signals, id, name)
    ensures var t := Apply(reg, s, a);
      id in t.db.instances && t.db.instances[id] == s.db.instances[id] && NoneFor(t.db, id, name)
  {
    hide WillRun;
    hide Sent;
    match a
    case Send(to, n, payload) => NoneStays(s.db, Signal(to, n, payload, false), id, name);
    case SendRow(c) =>
      NoneStays(s.db, Signal(s.calls[c].id, s.calls[c].name, s.calls[c].payload, false), id, name);
    case _ =>
  }

  lemma RunWaits(reg: Registry, s: System, a: Action, id: string, step: Step)
    requires Inv(reg, s) && Enabled(reg, s, a) && a.RunClaimed?
    requires id in s.db.instances && WaitsAt(reg, s.db.instances[id], step) && NoneFor(s.db, id, step.signal)
    requires s.db.instances[id].wakeAt.Some? ==> Apply(reg, s, a).clock < s.db.instances[id].wakeAt.value
    ensures var t := Apply(reg, s, a);
      id in t.db.instances && t.db.instances[id] == s.db.instances[id] && NoneFor(t.db, id, step.signal)
  {
    hide RunJob;
    hide Awaited;
    hide RowOk;
    var runner := s.db.jobs[s.workers[a.worker].job].workflowId;
    var run := RunJob(reg, a.clock, s.db, runner, a.token, a.leaseMs);
    if run.Finished? {
      JobFrame(reg, a.clock, s.db, runner, a.token, a.leaseMs);
      assert a.clock(1) <= a.clock(run.tick);
      if id == runner {
        EarlyWaitJob(reg, a.clock, s.db, id, a.token, a.leaseMs, step);
      } else {
        forall j: nat ensures !PendingAt(run.db.signals, id, step.signal, j) {
          JobKeepsPending(reg, a.clock, s.db, runner, a.token, a.leaseMs, id, step.signal, j);
        }
      }
    }
  }

  /**
   Through any interleaving a workflow that waits, with no signal there, stays exactly as it is as long as none of
   that name is sent to it and the clock has not reached its deadline.
   */
  lemma {:induction false} WaitsUntilDue(reg: Registry, s: System, actions: seq<Action>, id: string, step: Step)
    requires Inv(reg, s) && CanRun(reg, s, actions)
    requires id in s.db.instances && WaitsAt(reg, s.db.instances[id], step) && NoneFor(s.db, id, step.signal)
    requires var t := RunActions(reg, s, actions);
      && Sent(t.db.signals, id, step.signal) == Sent(s.db.signals, id, step.signal)
      && (s.db.instances[id].wakeAt.Some? ==> t.clock < s.db.instances[id].wakeAt.value)
    ensures var t := RunActions(reg, s, actions);
      id in t.db.instances && t.db.instances[id] == s.db.instances[id] && NoneFor(t.db, id, step.signal)
    decreases |actions|
  {
    assert Aligned(s);
    hide Inv;
    hide Apply;
    hide Sent;
    hide NoneFor;
    hide WaitsAt;
    if actions != [] {
      var next := Apply(reg, s, actions[0]);
      ActionKeepsInv(reg, s, actions[0]);
      SentGoesOn(reg, s, actions[0], id, step.signal);
      SentRuns(reg, next, actions[1..], id, step.signal);
      ClockRuns(reg, next, actions[1..]);
      WaitStays(reg, s, actions[0], id, step);
      WaitsUntilDue(reg, next, actions[1..], id, step);
    }
  }

  // ----- wake-up times in every reachable state -----

  /** The wake-up of a resting row is as long after some clock reading up to now as its step asked for. */
  ghost predicate Asked(reg: Registry, row: Row, now: int) {
    row.status == Sleeping || row.status == WaitingSignal ==>
      && row.workflow in reg.workflows
      && match AskedDelay(reg.workflows[row.workflow].steps, row)
         case None => row.wakeAt.None?
         case Some(delay) => row.wakeAt.Some? && row.wakeAt.value - delay <= now
  }

  ghost predicate AllAsked(reg: Registry, s: System) {
    forall id :: id in s.db.instances ==> Asked(reg, s.db.instances[id], s.clock)
  }

  /** A run that brings its workflow to rest takes the reading while it runs: not before the state it ran in. */
  lemma RestsFromNow(reg: Registry, s: System, a: Action)
    requires Inv(reg, s) && Enabled(reg, s, a) && a.RunClaimed?
    requires s.db.jobs[s.workers[a.worker].job].workflowId in s.db.instances
    ensures var t := Apply(reg, s, a);
      var id := s.db.jobs[s.workers[a.worker].job].workflowId;
      && id in t.db.instances
      && var row := t.db.instances[id];
         row != s.db.instances[id] && (row.status == Sleeping || row.status == WaitingSignal) ==>
           && row.workflow in reg.workflows
           && match AskedDelay(reg.workflows[row.workflow].steps, row)
              case None => row.wakeAt.None?
              case Some(delay) =>
                && row.wakeAt.Some? && s.clock <= row.wakeAt.value - delay <= t.clock
                && t.db.jobs != [] && var job := t.db.jobs[|t.db.jobs| - 1];
                   job.workflowId == id && job.status == Pending && row.wakeAt.value <= job.availableAt <= t.clock + delay
  {
    hide RunJob;
    hide WillRun;
    hide Awaited;
    hide RowOk;
    var id := s.db.jobs[s.workers[a.worker].job].workflowId;
    var run := RunJob(reg, a.clock, s.db, id, a.token, a.leaseMs);
    if run.Finished? {
      JobFrame(reg, a.clock, s.db, id, a.token, a.leaseMs);
      JobRestsAsAsked(reg, a.clock, s.db, id, a.token, a.leaseMs);
      var row := run.db.instances[id];
      if row != s.db.instances[id] && (row.status == Sleeping || row.status == WaitingSignal) {
        var delay := AskedDelay(reg.workflows[row.workflow].steps, row);
        if delay.Some? {
          var k :| 1 <= k && k + 1 < run.tick && RestsFrom(run.db.jobs, id, row, a.clock, k, delay.value);
          assert a.clock(0) <= a.clock(k) <= a.clock(k + 1) <= a.clock(run.tick);
        }
      }
    }
  }

  lemma RunKeepsAsked(reg: Registry, s: System, a: Action)
    requires Inv(reg, s) && Enabled(reg, s, a) && AllAsked(reg, s) && a.RunClaimed?
    ensures AllAsked(reg, Apply(reg, s, a))
  {
    hide RunJob;
    hide WillRun;
    hide Awaited;
    hide RowOk;
    var t := Apply(reg, s, a);
    ClockGoesOn(reg, s, a);
    var runner := s.db.jobs[s.workers[a.worker].job].workflowId;
    RestsFromNow(reg, s, a);
    if RunJob(reg, a.clock, s.db, runner, a.token, a.leaseMs).Finished? {
      JobFrame(reg, a.clock, s.db, runner, a.token, a.leaseMs);
      JobKeepsRows(reg, a.clock, s.db, runner, a.token, a.leaseMs);
    }
    hide Inv;
    forall id | id in t.db.instances ensures Asked(reg, t.db.instances[id], t.clock) {
      assert Asked(reg, s.db.instances[id], s.clock);
    }
  }

  /** Any other action only adds running rows. */
  lemma ActionKeepsAsked(reg: Registry, s: System, a: Action)
    requires Inv(reg, s) && Enabled(reg, s, a) && AllAsked(reg, s)
    ensures AllAsked(reg, Apply(reg, s, a))
  {
    hide RunJob;
    hide WillRun;
    if a.RunClaimed? {
      RunKeepsAsked(reg, s, a);
    } else {
      ClockGoesOn(reg, s, a);
      hide Inv;
      var t := Apply(reg, s, a);
      forall id | id in t.db.instances ensures Asked(reg, t.db.instances[id], t.clock) {
        assert id in s.db.instances ==> Asked(reg, s.db.instances[id], s.clock);
      }
    }
  }

  /** In every reachable state a resting row's wake-up is the delay, or timeout, its step asked for after some time up to now. */
  lemma {:induction false} WakeUpsAreAsked(reg: Registry, s: System, actions: seq<Action>)
    requires Initial(s) || (Inv(reg, s) && AllAsked(reg, s))
    requires CanRun(reg, s, actions)
    ensures AllAsked(reg, RunActions(reg, s, actions))
    decreases |actions|
  {
    InitialInv(reg, s);
    assert Aligned(s) && AllAsked(reg, s);
    hide Inv;
    hide Apply;
    hide AllAsked;
    if actions != [] {
      ActionKeepsInv(reg, s, actions[0]);
      ActionKeepsAsked(reg, s, actions[0]);
      WakeUpsAreAsked(reg, Apply(reg, s, actions[0]), actions[1..]);
    }
  }

  // ----- a start or a signal can be run at once -----

  /** A signal is stored and gets its job, unless its workflow is not there or has ended. */
  lemma SignalExactly(db: Db, id: string, name: string, payload: Json, now: int)
    ensures SignalWorkflow(db, id, name, payload, now)
         == if id !in db.instances || db.instances[id].status.Completed? || db.instances[id].status.Failed? then None
            else Some(Db(db.instances, db.signals + [Signal(id, name, payload, false)], db.jobs + [Job(id, now, Pending, None)]))
  {
  }

  /** A start is stored at its first step and gets its job, unless its id is taken, its workflow unknown, or its initial state fails. */
  lemma StartExactly(reg: Registry, db: Db, id: string, workflow: (string, int), input: Json, now: int)
    ensures var start := StartWorkflow(reg, db, id, workflow, input, now);
      if id in db.instances || workflow !in reg.workflows || reg.workflows[workflow].initialState(input).Threw?
      then start == None
      else
        var (steps, state) := (reg.workflows[workflow].steps, reg.workflows[workflow].initialState(input).value);
        var first := if steps == [] then None else Some(steps[0].id);
        start == Some(Db(db.instances[id := Row(workflow, Running, input, state, first, 0, None, None)],
                         db.signals, db.jobs + [Job(id, now, Pending, None)]))
  {
  }

  /** The job of a start or a signal is there and can be claimed in the same instant. */
  lemma CalledIsClaimable(reg: Registry, s: System, a: Action, w: nat, leaseMs: int)
    requires Aligned(s) && Enabled(reg, s, a) && (a.Start? || a.Send? || a.EnqueueJob?) && w !in s.workers
    ensures var t := Apply(reg, s, a);
      && |t.db.jobs| == |s.db.jobs| + 1 && Enabled(reg, t, Claim(w, |s.db.jobs|, leaseMs))
      && t.db.jobs[|s.db.jobs|].workflowId == if a.EnqueueJob? then s.calls[a.caller].id else a.id
  {
    hide WillRun;
  }

  /** Which jobs a worker can claim: those pending whose time has come, and those whose last worker's lease has run out. */
  lemma ClaimExactly(reg: Registry, s: System, w: nat, j: nat, leaseMs: int)
    requires w !in s.workers && j < |s.db.jobs|
    ensures var job := s.db.jobs[j];
      Enabled(reg, s, Claim(w, j, leaseMs)) <==>
        match job.status
        case Pending => job.availableAt <= s.clock
        case Processing => job.leaseExpiresAt.Some? && job.leaseExpiresAt.value <= s.clock
        case _ => false
  {
  }

  /** A worker that claims a job and dies keeps it from the others until its lease runs out, and no longer. */
  lemma AbandonedIsClaimable(reg: Registry, s: System, w: nat, v: nat, j: nat, leaseMs: int, ms: nat, again: int)
    requires Aligned(s) && Enabled(reg, s, Claim(w, j, leaseMs)) && v !in s.workers
    ensures var claimed := Apply(reg, s, Claim(w, j, leaseMs));
      && Enabled(reg, claimed, Die(w))
      && var left := Apply(reg, Apply(reg, claimed, Die(w)), Tick(ms));
         Enabled(reg, left, Claim(v, j, again)) <==> leaseMs <= ms
  {
    hide WillRun;
  }
}

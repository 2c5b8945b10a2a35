/** The engine's workflow methods, which update the tables in place. */
module WorkflowEngine {
  import opened Wrappers
  import opened Json
  import opened WorkflowModel

  datatype Flow = Loop | Return | Exception

  class Engine {
    const registry: Registry
    /** The readings the platform clock will give, in order. */
    const clock: nat -> int
    var tick: nat
    var instances: map<string, Row>
    var signals: seq<Signal>
    var jobs: seq<Job>

    ghost function State(): Db
      reads this
    {
      Db(instances, signals, jobs)
    }

    constructor (registry: Registry, clock: nat -> int)
      ensures this.registry == registry && this.clock == clock && tick == 0 && State() == Db(map[], [], [])
    {
      this.registry := registry;
      this.clock := clock;
      tick, instances, signals, jobs := 0, map[], [], [];
    }

    method Now() returns (now: int)
      modifies this`tick
      ensures now == clock(old(tick)) && tick == old(tick) + 1
    {
      now := clock(tick);
      tick := tick + 1;
    }

    method QueueEnqueue(id: string, delayMs: int)
      modifies this`tick, this`jobs
      ensures tick == old(tick) + 1
      ensures jobs == old(jobs) + [Job(id, clock(old(tick)) + Max(0, delayMs), Pending, None)]
    {
      var now := Now();
      jobs := jobs + [Job(id, now + Max(0, delayMs), Pending, None)];
    }

    /** False stands for a throw, which leaves the tables as they were. */
    method Start(id: string, workflow: (string, int), input: Json) returns (ok: bool)
      modifies this`tick, this`instances, this`jobs
      ensures ok <==> StartWorkflow(registry, old(State()), id, workflow, input, clock(old(tick))).Some?
      ensures State() ==
        if ok then StartWorkflow(registry, old(State()), id, workflow, input, clock(old(tick))).value else old(State())
    {
      if workflow !in registry.workflows || id in instances { return false; }
      var def := registry.workflows[workflow];
      match def.initialState(input) {
        case Threw =>
          return false;
        case Ok(state) =>
          instances := instances[id := Row(workflow, Running, input, state, StepIdAt(def.steps, 0), 0, None, None)];
          QueueEnqueue(id, 0);
          return true;
      }
    }

    /** False stands for a throw, which leaves the tables as they were. */
    method Send(id: string, name: string, payload: Json) returns (ok: bool)
      modifies this`tick, this`signals, this`jobs
      ensures ok <==> SignalWorkflow(old(State()), id, name, payload, clock(old(tick))).Some?
      ensures State() ==
        if ok then SignalWorkflow(old(State()), id, name, payload, clock(old(tick))).value else old(State())
    {
      if id !in instances || Terminal(instances[id]) { return false; }
      signals := signals + [Signal(id, name, payload, false)];
      QueueEnqueue(id, 0);
      return true;
    }

    /** One turn of the run loop. */
    method Turn(id: string) returns (flow: Flow)
      modifies this`tick, this`instances, this`signals, this`jobs
      ensures var turn := OneTurn(registry, clock, old(State()), id, old(tick));
        match flow
        case Loop => turn == Again(State(), tick)
        case Return => turn == Stop(State(), tick)
        case Exception => turn.Throw?
    {
      if id !in instances || Terminal(instances[id]) { return Return; }
      var row := instances[id];
      if row.status == Sleeping {
        if row.wakeAt.Some? {
          var now := Now();
          if row.wakeAt.value > now { return Return; }
        }
        instances := instances[id := row.(status := Running, wakeAt := None)];
        return Loop;
      }
      if row.workflow !in registry.workflows { return Exception; }
      var steps := registry.workflows[row.workflow].steps;
      if row.stepIndex >= |steps| {
        instances := instances[id :=
          row.(status := Completed, stepId := None, stepIndex := |steps|, wakeAt := None, lease := None)];
        return Return;
      }
      var step := steps[row.stepIndex];
      match step {
        case ActionStep(_, _, _, _) =>
          var result := RunAction(registry, step, row.input, row.state);
          if result.Threw? { return Exception; }
          instances := instances[id := NextStep(steps, row, result.value)];
          return Loop;
        case SleepStep(_, _) =>
          flow := Sleep(id, steps);
        case WaitStep(_, _, _, _, _) =>
          flow := Wait(id, steps);
      }
    }

    method Sleep(id: string, steps: seq<Step>) returns (flow: Flow)
      requires id in instances && instances[id].stepIndex < |steps| && steps[instances[id].stepIndex].SleepStep?
      modifies this`tick, this`instances, this`jobs
      ensures var turn := SleepTurn(clock, old(State()), id, steps, steps[old(instances)[id].stepIndex].delayMs, old(tick));
        match flow
        case Loop => turn == Again(State(), tick)
        case Return => turn == Stop(State(), tick)
        case Exception => turn.Throw?
    {
      var row := instances[id];
      var rawDelay := steps[row.stepIndex].delayMs(row.input, row.state);
      if rawDelay.Threw? { return Exception; }
      var delayMs := Max(0, rawDelay.value);
      var next := row.(stepId := StepIdAt(steps, row.stepIndex + 1), stepIndex := row.stepIndex + 1);
      if delayMs == 0 {
        instances := instances[id := next];
        return Loop;
      }
      var now := Now();
      instances := instances[id := next.(status := Sleeping, wakeAt := Some(now + delayMs))];
      QueueEnqueue(id, delayMs);
      return Return;
    }

    method Wait(id: string, steps: seq<Step>) returns (flow: Flow)
      requires id in instances && instances[id].stepIndex < |steps| && steps[instances[id].stepIndex].WaitStep?
      modifies this`tick, this`instances, this`signals, this`jobs
      ensures var turn := WaitTurn(clock, old(State()), id, steps, old(tick));
        match flow
        case Loop => turn == Again(State(), tick)
        case Return => turn == Stop(State(), tick)
        case Exception => turn.Throw?
    {
      var row := instances[id];
      var step := steps[row.stepIndex];
      var pending := FirstPending(signals, id, step.signal, 0);
      if pending.Some? {
        var payload := signals[pending.value].payload;
        signals := Consume(signals, pending.value);
        var state := step.onSignal(row.input, payload, row.state);
        if state.Threw? { return Exception; }
        instances := instances[id := NextStep(steps, row, state.value)];
        return Loop;
      }
      var timeout := step.timeoutMs(row.input, row.state);
      if timeout.Threw? { return Exception; }
      var now := Now();
      var wakeAt := if timeout.value.Some? then Some(now + Max(0, timeout.value.value)) else None;
      if row.status == WaitingSignal {
        if row.wakeAt.Some? && row.wakeAt.value <= now {
          var next := TimeOut(steps, row, step.onTimeout);
          if next.Threw? { return Exception; }
          instances := instances[id := next.value];
          return Loop;
        }
        return Return;
      }
      if wakeAt.Some? && wakeAt.value <= now {
        var next := TimeOut(steps, row, step.onTimeout);
        if next.Threw? { return Exception; }
        instances := instances[id := next.value];
        return Loop;
      }
      instances := instances[id := row.(status := WaitingSignal, stepId := Some(step.id), wakeAt := wakeAt)];
      if wakeAt.Some? {
        QueueEnqueue(id, Max(0, wakeAt.value - now));
      }
      return Return;
    }

    /** The run loop; false stands for an exception, thrown by a step or by the turn limit. */
    method RunWorkflowInstanceUntilSuspended(id: string) returns (ok: bool)
      modifies this`tick, this`instances, this`signals, this`jobs
      ensures var run := RunUntilSuspended(registry, clock, old(State()), id, old(tick), MAX_TURNS);
        if ok then run == Finished(State(), tick) else !run.Finished?
    {
      for guard := 0 to MAX_TURNS
        invariant RunUntilSuspended(registry, clock, old(State()), id, old(tick), MAX_TURNS)
               == RunUntilSuspended(registry, clock, State(), id, tick, MAX_TURNS - guard)
      {
        var flow := Turn(id);
        if flow == Return { return true; }
        if flow == Exception { return false; }
      }
      return false;
    }

    /**
     A workflow job in its root transaction: take the lease, run, release the lease. On an exception
     the transaction is rolled back, together with the row the handler had just marked as failed.
     */
    method ProcessWorkflowQueuePayload(id: string, token: nat, leaseMs: int) returns (ok: bool)
      modifies this`tick, this`instances, this`signals, this`jobs
      ensures var run := RunJobAt(registry, clock, old(State()), id, token, leaseMs, old(tick));
        if ok then run == Finished(State(), tick) else !run.Finished? && State() == old(State())
    {
      hide RunUntilSuspended;
      var instances0, signals0, jobs0 := instances, signals, jobs;
      var now := Now();
      if !Leasable(Db(instances, signals, jobs), id, now) {
        return true;
      }
      instances := instances[id := instances[id].(lease := Some(Lease(token, now + leaseMs)))];
      ok := RunWorkflowInstanceUntilSuspended(id);
      if ok {
        ReleaseWorkflowLease(id, token);
      } else {
        FailWorkflowInstance(id);
        ReleaseWorkflowLease(id, token);
        instances, signals, jobs := instances0, signals0, jobs0;
      }
    }

    method ReleaseWorkflowLease(id: string, token: nat)
      modifies this`instances
      ensures State() == ReleaseLease(old(State()), id, token)
    {
      if id in instances && instances[id].lease.Some? && instances[id].lease.value.token == token {
        instances := instances[id := instances[id].(lease := None)];
      }
    }

    method FailWorkflowInstance(id: string)
      modifies this`instances
      ensures instances == if id in old(instances)
        then old(instances)[id := old(instances)[id].(status := Failed, wakeAt := None, lease := None)]
        else old(instances)
    {
      if id in instances {
        instances := instances[id := instances[id].(status := Failed, wakeAt := None, lease := None)];
      }
    }
  }

  // ----- a job in the engine is a job of the protocol -----

  /** `late` is `clock` as read by somebody who starts after `k` readings. */
  ghost predicate Shifted(late: nat -> int, clock: nat -> int, k: nat) {
    forall i: nat :: late(i) == clock(k + i)
  }

  /** A turn with its clock readings counted from the `k`-th on. */
  function Later(turn: WorkflowModel.Turn, k: nat): WorkflowModel.Turn {
    match turn
    case Again(db, tick) => WorkflowModel.Again(db, k + tick)
    case Stop(db, tick) => WorkflowModel.Stop(db, k + tick)
    case Throw => WorkflowModel.Throw
  }

  lemma SleepShifts(
    late: nat -> int, clock: nat -> int, k: nat, db: Db, id: string, steps: seq<Step>,
    delayMs: (Json, Json) -> Outcome<int>, tick: nat)
    requires Shifted(late, clock, k) && id in db.instances
    ensures SleepTurn(clock, db, id, steps, delayMs, k + tick) == Later(SleepTurn(late, db, id, steps, delayMs, tick), k)
  {
    assert late(tick) == clock(k + tick) && late(tick + 1) == clock(k + (tick + 1));
  }

  lemma WaitShifts(late: nat -> int, clock: nat -> int, k: nat, db: Db, id: string, steps: seq<Step>, tick: nat)
    requires Shifted(late, clock, k)
    requires id in db.instances && db.instances[id].stepIndex < |steps| && steps[db.instances[id].stepIndex].WaitStep?
    ensures WaitTurn(clock, db, id, steps, k + tick) == Later(WaitTurn(late, db, id, steps, tick), k)
  {
    assert late(tick) == clock(k + tick) && late(tick + 1) == clock(k + (tick + 1));
  }

  lemma TurnShifts(reg: Registry, late: nat -> int, clock: nat -> int, k: nat, db: Db, id: string, tick: nat)
    requires Shifted(late, clock, k)
    ensures OneTurn(reg, clock, db, id, k + tick) == Later(OneTurn(reg, late, db, id, tick), k)
  {
    hide SleepTurn;
    hide WaitTurn;
    assert late(tick) == clock(k + tick);
    if id in db.instances && db.instances[id].workflow in reg.workflows {
      var row := db.instances[id];
      var steps := reg.workflows[row.workflow].steps;
      if row.stepIndex < |steps| {
        match steps[row.stepIndex]
        case SleepStep(_, delayMs) => SleepShifts(late, clock, k, db, id, steps, delayMs, tick);
        case WaitStep(_, _, _, _, _) => WaitShifts(late, clock, k, db, id, steps, tick);
        case _ =>
      }
    }
  }

  lemma {:induction false} RunShifts(
    reg: Registry, late: nat -> int, clock: nat -> int, k: nat, db: Db, id: string, tick: nat, turns: nat)
    requires Shifted(late, clock, k)
    ensures var run := RunUntilSuspended(reg, late, db, id, tick, turns);
      RunUntilSuspended(reg, clock, db, id, k + tick, turns)
        == if run.Finished? then Finished(run.db, k + run.tick) else run
    decreases turns
  {
    hide OneTurn;
    if turns > 0 {
      TurnShifts(reg, late, clock, k, db, id, tick);
      match OneTurn(reg, late, db, id, tick)
      case Again(db', tick') => RunShifts(reg, late, clock, k, db', id, tick', turns - 1);
      case _ =>
    }
  }

  /** The engine's job is the protocol's job, with the clock counted from the job's own start. */
  lemma JobShifts(
    reg: Registry, late: nat -> int, clock: nat -> int, db: Db, id: string, token: nat, leaseMs: int, tick: nat)
    requires Shifted(late, clock, tick)
    ensures var run := RunJob(reg, late, db, id, token, leaseMs);
      RunJobAt(reg, clock, db, id, token, leaseMs, tick)
        == if run.Finished? then Finished(run.db, tick + run.tick) else run
  {
    hide RunUntilSuspended;
    assert late(0) == clock(tick + 0);
    RunShifts(reg, late, clock, tick, TakeLeaseIf(db, id, Lease(token, late(0) + leaseMs)), id, 1, MAX_TURNS);
  }

  function TakeLeaseIf(db: Db, id: string, lease: Lease): Db {
    if id in db.instances then TakeLease(db, id, lease) else db
  }
}

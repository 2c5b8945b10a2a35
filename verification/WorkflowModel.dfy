/**
 Steps-mode workflows: the tables they live in and what one queue job does to them. User callbacks
 and actions are functions of their arguments; `Threw` is an exception.
 */
module WorkflowModel {
  import opened Wrappers
  import opened Json

  datatype Outcome<+T> = Threw | Ok(value: T)

  datatype OnTimeout = Fail | Continue | Update(f: (Json, Json) -> Outcome<Json>)

  /** Callbacks take the workflow's input and state, in that order, before anything else they get. */
  datatype Step =
    | ActionStep(id: string, action: string, args: (Json, Json) -> Outcome<Json>,
                 onResult: (Json, Json, Json) -> Outcome<Json>)
    | SleepStep(id: string, delayMs: (Json, Json) -> Outcome<int>)
    | WaitStep(id: string, signal: string, timeoutMs: (Json, Json) -> Outcome<Option<int>>,
               onSignal: (Json, Json, Json) -> Outcome<Json>, onTimeout: OnTimeout)

  datatype Definition = Definition(steps: seq<Step>, initialState: Json -> Outcome<Json>)

  /** Workflows by name and version, and the registered actions by name. */
  datatype Registry = Registry(workflows: map<(string, int), Definition>, actions: map<string, Json -> Outcome<Json>>)

  datatype Status = Running | Sleeping | WaitingSignal | Completed | Failed

  datatype Lease = Lease(token: nat, expiresAt: int)

  /** A row of the instances table. */
  datatype Row = Row(
    workflow: (string, int), status: Status, input: Json, state: Json,
    stepId: Option<string>, stepIndex: nat, wakeAt: Option<int>, lease: Option<Lease>)

  /** A row of the signals table; its id is its position. */
  datatype Signal = Signal(workflowId: string, name: string, payload: Json, consumed: bool)

  datatype JobStatus = Pending | Processing | Done | Exhausted

  /** A row of the queue that drives workflows; its id is its position. */
  datatype Job = Job(workflowId: string, availableAt: int, status: JobStatus, leaseExpiresAt: Option<int>)

  datatype Db = Db(instances: map<string, Row>, signals: seq<Signal>, jobs: seq<Job>)

  const MAX_TURNS := 1_024

  predicate Terminal(row: Row) {
    row.status == Completed || row.status == Failed
  }

  function StepIdAt(steps: seq<Step>, i: nat): Option<string> {
    if i < |steps| then Some(steps[i].id) else None
  }

  function PutRow(db: Db, id: string, row: Row): Db {
    db.(instances := db.instances[id := row])
  }

  function Enqueue(db: Db, id: string, availableAt: int): Db {
    db.(jobs := db.jobs + [Job(id, availableAt, Pending, None)])
  }

  predicate PendingAt(signals: seq<Signal>, id: string, name: string, j: nat) {
    j < |signals| && signals[j].workflowId == id && signals[j].name == name && !signals[j].consumed
  }

  /** The oldest unconsumed signal of that name, looked for from position `from`. */
  function FirstPending(signals: seq<Signal>, id: string, name: string, from: nat): (r: Option<nat>)
    ensures r.Some? ==> from <= r.value && PendingAt(signals, id, name, r.value)
    ensures r.Some? ==> forall j :: from <= j < r.value ==> !PendingAt(signals, id, name, j)
    ensures r.None? ==> forall j :: from <= j ==> !PendingAt(signals, id, name, j)
    decreases |signals| - from
  {
    if from >= |signals| then None
    else if PendingAt(signals, id, name, from) then Some(from)
    else FirstPending(signals, id, name, from + 1)
  }

  function Consume(signals: seq<Signal>, j: nat): seq<Signal>
    requires j < |signals|
  {
    signals[j := signals[j].(consumed := true)]
  }

  // ----- starting and signalling -----

  /** The first statement of a start. None stands for a throw: no such workflow, an initial state that throws, or an id already taken. */
  function InsertInstance(reg: Registry, db: Db, id: string, workflow: (string, int), input: Json): Option<Db> {
    if workflow !in reg.workflows || id in db.instances then None
    else
      var def := reg.workflows[workflow];
      match def.initialState(input)
      case Threw => None
      case Ok(state) =>
        Some(PutRow(db, id, Row(workflow, Running, input, state, StepIdAt(def.steps, 0), 0, None, None)))
  }

  /** A start that throws changes nothing; the second statement enqueues the job. */
  function StartWorkflow(reg: Registry, db: Db, id: string, workflow: (string, int), input: Json, now: int): Option<Db> {
    match InsertInstance(reg, db, id, workflow, input)
    case None => None
    case Some(inserted) => Some(Enqueue(inserted, id, now))
  }

  /** Signals are sent to workflows that are there and not terminal. */
  predicate Signalable(db: Db, id: string) {
    id in db.instances && !Terminal(db.instances[id])
  }

  function InsertSignal(db: Db, id: string, name: string, payload: Json): Db {
    db.(signals := db.signals + [Signal(id, name, payload, false)])
  }

  /** None stands for a throw: no such instance, or one that is terminal. */
  function SignalWorkflow(db: Db, id: string, name: string, payload: Json, now: int): Option<Db> {
    if !Signalable(db, id) then None else Some(Enqueue(InsertSignal(db, id, name, payload), id, now))
  }

  // ----- one turn of the run loop -----

  /** How a turn ends: the loop goes on, it returns, or an exception leaves it. `tick` counts clock readings. */
  datatype Turn = Again(db: Db, tick: nat) | Stop(db: Db, tick: nat) | Throw

  /** The row moved on to the next step, running. */
  function NextStep(steps: seq<Step>, row: Row, state: Json): Row {
    row.(state := state, status := Running, stepId := StepIdAt(steps, row.stepIndex + 1),
         stepIndex := row.stepIndex + 1, wakeAt := None)
  }

  function TimeOut(steps: seq<Step>, row: Row, onTimeout: OnTimeout): Outcome<Row> {
    match onTimeout
    case Fail => Threw
    case Continue => Ok(NextStep(steps, row, row.state))
    case Update(f) =>
      match f(row.input, row.state)
      case Threw => Threw
      case Ok(state) => Ok(NextStep(steps, row, state))
  }

  function RunAction(reg: Registry, step: Step, input: Json, state: Json): Outcome<Json>
    requires step.ActionStep?
  {
    match step.args(input, state)
    case Threw => Threw
    case Ok(args) =>
      if step.action !in reg.actions then Threw
      else
        match reg.actions[step.action](args)
        case Threw => Threw
        case Ok(result) => step.onResult(input, result, state)
  }

  function OneTurn(reg: Registry, clock: nat -> int, db: Db, id: string, tick: nat): Turn {
    if id !in db.instances || Terminal(db.instances[id]) then Stop(db, tick)
    else
      var row := db.instances[id];
      if row.status == Sleeping then
        if row.wakeAt.Some? && row.wakeAt.value > clock(tick) then Stop(db, tick + 1)
        else Again(PutRow(db, id, row.(status := Running, wakeAt := None)), tick + if row.wakeAt.Some? then 1 else 0)
      else if row.workflow !in reg.workflows then Throw
      else
        var steps := reg.workflows[row.workflow].steps;
        if row.stepIndex >= |steps| then
          var done := row.(status := Completed, stepId := None, stepIndex := |steps|, wakeAt := None, lease := None);
          Stop(PutRow(db, id, done), tick)
        else
          match steps[row.stepIndex]
          case ActionStep(_, _, _, _) =>
            (match RunAction(reg, steps[row.stepIndex], row.input, row.state)
             case Threw => Throw
             case Ok(state) => Again(PutRow(db, id, NextStep(steps, row, state)), tick))
          case SleepStep(_, delayMs) => SleepTurn(clock, db, id, steps, delayMs, tick)
          case WaitStep(_, _, _, _, _) => WaitTurn(clock, db, id, steps, tick)
  }

  function SleepTurn(
    clock: nat -> int, db: Db, id: string, steps: seq<Step>, delayMs: (Json, Json) -> Outcome<int>, tick: nat): Turn
    requires id in db.instances
  {
    var row := db.instances[id];
    match delayMs(row.input, row.state)
    case Threw => Throw
    case Ok(rawDelay) =>
      var next := row.(stepId := StepIdAt(steps, row.stepIndex + 1), stepIndex := row.stepIndex + 1);
      var delay := Max(0, rawDelay);
      if delay == 0 then Again(PutRow(db, id, next), tick)
      else
        var slept := PutRow(db, id, next.(status := Sleeping, wakeAt := Some(clock(tick) + delay)));
        Stop(Enqueue(slept, id, clock(tick + 1) + delay), tick + 2)
  }

  function WaitTurn(clock: nat -> int, db: Db, id: string, steps: seq<Step>, tick: nat): Turn
    requires id in db.instances && db.instances[id].stepIndex < |steps| && steps[db.instances[id].stepIndex].WaitStep?
  {
    var row := db.instances[id];
    var step := steps[row.stepIndex];
    match FirstPending(db.signals, id, step.signal, 0)
    case Some(j) =>
      (match step.onSignal(row.input, db.signals[j].payload, row.state)
       case Threw => Throw
       case Ok(state) =>
         Again(PutRow(db.(signals := Consume(db.signals, j)), id, NextStep(steps, row, state)), tick))
    case None =>
      match step.timeoutMs(row.input, row.state)
      case Threw => Throw
      case Ok(timeout) =>
        var now := clock(tick);
        var wakeAt := match timeout { case None => None case Some(ms) => Some(now + Max(0, ms)) };
        var expired := if row.status == WaitingSignal then row.wakeAt else wakeAt;
        if expired.Some? && expired.value <= now then
          match TimeOut(steps, row, step.onTimeout)
          case Threw => Throw
          case Ok(next) => Again(PutRow(db, id, next), tick + 1)
        else if row.status == WaitingSignal then Stop(db, tick + 1)
        else
          var waiting := PutRow(db, id, row.(status := WaitingSignal, stepId := Some(step.id), wakeAt := wakeAt));
          if wakeAt.None? then Stop(waiting, tick + 1)
          else Stop(Enqueue(waiting, id, clock(tick + 1) + Max(0, wakeAt.value - now)), tick + 2)
  }

  // ----- a whole run -----

  datatype Run = Finished(db: Db, tick: nat) | StepThrew | OutOfTurns

  function RunUntilSuspended(reg: Registry, clock: nat -> int, db: Db, id: string, tick: nat, turns: nat): Run
    decreases turns
  {
    if turns == 0 then OutOfTurns
    else
      match OneTurn(reg, clock, db, id, tick)
      case Throw => StepThrew
      case Stop(db', tick') => Finished(db', tick')
      case Again(db', tick') => RunUntilSuspended(reg, clock, db', id, tick', turns - 1)
  }

  predicate Leasable(db: Db, id: string, now: int) {
    && id in db.instances && !Terminal(db.instances[id])
    && (db.instances[id].lease.None? || db.instances[id].lease.value.expiresAt <= now)
  }

  function TakeLease(db: Db, id: string, lease: Lease): Db
    requires id in db.instances
  {
    PutRow(db, id, db.instances[id].(lease := Some(lease)))
  }

  function ReleaseLease(db: Db, id: string, token: nat): Db {
    if id in db.instances && db.instances[id].lease.Some? && db.instances[id].lease.value.token == token
    then PutRow(db, id, db.instances[id].(lease := None))
    else db
  }

  /**
   What a workflow job does inside its transaction, from the clock reading `tick` on. A throw rolls
   the transaction back, lease included.
   */
  function RunJobAt(reg: Registry, clock: nat -> int, db: Db, id: string, token: nat, leaseMs: int, tick: nat): Run {
    if !Leasable(db, id, clock(tick)) then Finished(db, tick + 1)
    else
      var leased := TakeLease(db, id, Lease(token, clock(tick) + leaseMs));
      match RunUntilSuspended(reg, clock, leased, id, tick + 1, MAX_TURNS)
      case Finished(db', tick') => Finished(ReleaseLease(db', id, token), tick')
      case StepThrew => StepThrew
      case OutOfTurns => OutOfTurns
  }

  /** A job whose clock starts counting when it does. */
  function RunJob(reg: Registry, clock: nat -> int, db: Db, id: string, token: nat, leaseMs: int): Run {
    RunJobAt(reg, clock, db, id, token, leaseMs, 0)
  }
}

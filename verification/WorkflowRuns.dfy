/** What a whole run of a workflow job keeps, how it comes to rest, and when its turn limit bites. */
module WorkflowRuns {
  import opened Wrappers
  import opened Json
  import opened WorkflowModel
  import opened WorkflowSignals
  import opened WorkflowRefinement

  ghost predicate RowsOk(reg: Registry, db: Db) {
    forall id :: id in db.instances ==> RowOk(reg, db, id)
  }

  // ----- a run touches its own workflow only -----

  lemma TurnFrame(reg: Registry, clock: nat -> int, db: Db, id: string, tick: nat, after: Db)
    requires TurnTo(reg, clock, db, id, tick, after)
    ensures after.instances.Keys == db.instances.Keys
    ensures forall other :: other in db.instances && other != id ==> after.instances[other] == db.instances[other]
    ensures after.signals == db.signals
      || exists j: nat :: j < |db.signals| && db.signals[j].workflowId == id && after.signals == Consume(db.signals, j)
    ensures after.jobs == db.jobs
      || exists at :: after.jobs == db.jobs + [Job(id, at, Pending, None)]
    ensures id in db.instances ==>
      after.instances[id].lease == None || after.instances[id].lease == db.instances[id].lease
    ensures tick <= OneTurn(reg, clock, db, id, tick).tick
  {
    TurnSignals(reg, clock, db, id, tick, after);
  }

  lemma TurnSignals(reg: Registry, clock: nat -> int, db: Db, id: string, tick: nat, after: Db)
    requires TurnTo(reg, clock, db, id, tick, after)
    ensures after.signals == db.signals
      || exists j: nat :: j < |db.signals| && db.signals[j].workflowId == id && after.signals == Consume(db.signals, j)
  {
  }

  lemma SignalsFrame(reg: Registry, db: Db, after: Db, id: string, other: string)
    requires other != id && other in db.instances && other in after.instances
    requires after.instances[other] == db.instances[other] && RowOk(reg, db, other)
    requires after.signals == db.signals
      || exists j: nat :: j < |db.signals| && db.signals[j].workflowId == id && after.signals == Consume(db.signals, j)
    ensures RowOk(reg, after, other)
  {
    var row := db.instances[other];
    var def := reg.workflows[row.workflow];
    var ch :| Explains(reg, def, row, db.signals, other, ch);
    if after.signals != db.signals {
      var j: nat :| j < |db.signals| && db.signals[j].workflowId == id && after.signals == Consume(db.signals, j);
      forall name ensures Sent(after.signals, other, name) == Sent(db.signals, other, name) {
        ConsumeKeepsSent(db.signals, j, other, name);
      }
      PassKeepsUp(reg, def, row.input, db.signals, after.signals, other, ch, ch, |ch|);
      forall name ensures StreamAt(def.steps, after.signals, other, ch, name) {
        assert StreamAt(def.steps, db.signals, other, ch, name);
        ConsumeKeepsOthers(db.signals, j, other, name, TakenBefore(def.steps, ch, name, |ch|));
      }
    }
    assert Explains(reg, def, row, after.signals, other, ch);
  }

  lemma TurnKeepsRows(reg: Registry, clock: nat -> int, db: Db, id: string, tick: nat, after: Db)
    requires RowsOk(reg, db) && TurnTo(reg, clock, db, id, tick, after)
    ensures RowsOk(reg, after)
  {
    TurnFrame(reg, clock, db, id, tick, after);
    forall other | other in after.instances ensures RowOk(reg, after, other) {
      assert RowOk(reg, db, other);
      if other == id {
        TurnKeepsRow(reg, clock, db, id, tick, after);
      } else {
        SignalsFrame(reg, db, after, id, other);
      }
    }
  }

  /** However far a run gets before it suspends, every row stays explained by a one-pass execution. */
  lemma {:induction false} RunKeepsRows(reg: Registry, clock: nat -> int, db: Db, id: string, tick: nat, turns: nat)
    requires RowsOk(reg, db)
    requires RunUntilSuspended(reg, clock, db, id, tick, turns).Finished?
    ensures RowsOk(reg, RunUntilSuspended(reg, clock, db, id, tick, turns).db)
    decreases turns
  {
    hide OneTurn;
    match OneTurn(reg, clock, db, id, tick)
    case Stop(db', _) =>
      TurnKeepsRows(reg, clock, db, id, tick, db');
    case Again(db', tick') =>
      TurnKeepsRows(reg, clock, db, id, tick, db');
      RunKeepsRows(reg, clock, db', id, tick', turns - 1);
  }

  // ----- how a run comes to rest -----

  ghost predicate Monotone(clock: nat -> int) {
    forall i: nat, j: nat :: i <= j ==> clock(i) <= clock(j)
  }

  /** One of the jobs from position `from` on is for this workflow and not available before `wake`. */
  ghost predicate HasJob(jobs: seq<Job>, from: nat, id: string, wake: int) {
    exists j :: from <= j < |jobs| && jobs[j].workflowId == id && jobs[j].availableAt >= wake
  }

  predicate NoPending(reg: Registry, db: Db, id: string)
    requires id in db.instances
  {
    var row := db.instances[id];
    && row.workflow in reg.workflows && row.stepIndex < |reg.workflows[row.workflow].steps|
    && var step := reg.workflows[row.workflow].steps[row.stepIndex];
       step.WaitStep? && FirstPending(db.signals, id, step.signal, 0).None?
  }

  /** The workflow rests, and whatever will have to wake it was enqueued at position `from` or later. */
  ghost predicate Settled(reg: Registry, db: Db, id: string, from: nat)
    requires id in db.instances
  {
    var row := db.instances[id];
    || row.status == Completed
    || (row.status == Sleeping && row.wakeAt.Some? && HasJob(db.jobs, from, id, row.wakeAt.value))
    || (row.status == WaitingSignal && NoPending(reg, db, id)
        && (row.wakeAt.Some? ==> HasJob(db.jobs, from, id, row.wakeAt.value)))
  }

  /** The run came too early to do anything: the wake-up is later than its clock, and no signal is there. */
  ghost predicate TooEarly(reg: Registry, db: Db, id: string, now: int)
    requires id in db.instances
  {
    var row := db.instances[id];
    || (row.status == Sleeping && row.wakeAt.Some? && row.wakeAt.value > now)
    || (row.status == WaitingSignal && NoPending(reg, db, id) && (row.wakeAt.Some? ==> row.wakeAt.value > now))
  }

  lemma StopSettles(reg: Registry, clock: nat -> int, db: Db, id: string, tick: nat)
    requires id in db.instances && RowOk(reg, db, id) && Monotone(clock) && !Terminal(db.instances[id])
    requires OneTurn(reg, clock, db, id, tick).Stop?
    ensures var after := OneTurn(reg, clock, db, id, tick).db;
      && id in after.instances
      && (Settled(reg, after, id, |db.jobs|)
          || (after == db && db.instances[id].status != Running && TooEarly(reg, db, id, clock(tick))))
  {
    var after := OneTurn(reg, clock, db, id, tick).db;
    assert clock(tick) <= clock(tick + 1);
    if |after.jobs| > |db.jobs| {
      assert after.jobs[|db.jobs|].workflowId == id;
    }
  }

  lemma AgainRuns(reg: Registry, clock: nat -> int, db: Db, id: string, tick: nat)
    requires id in db.instances && RowOk(reg, db, id)
    requires OneTurn(reg, clock, db, id, tick).Again?
    ensures var turn := OneTurn(reg, clock, db, id, tick);
      && id in turn.db.instances && turn.db.instances[id].status == Running
      && turn.db.jobs == db.jobs && tick <= turn.tick
  {
  }

  /**
   A run that returns leaves its workflow completed, or resting with its wake-up enqueued by the run
   itself; or else it changed nothing because it came too early.
   */
  lemma {:induction false} RunSettles(reg: Registry, clock: nat -> int, db: Db, id: string, tick: nat, turns: nat)
    requires RowsOk(reg, db) && id in db.instances && Monotone(clock) && !Terminal(db.instances[id])
    requires RunUntilSuspended(reg, clock, db, id, tick, turns).Finished?
    ensures var after := RunUntilSuspended(reg, clock, db, id, tick, turns).db;
      && id in after.instances
      && (Settled(reg, after, id, |db.jobs|)
          || (after == db && db.instances[id].status != Running && TooEarly(reg, db, id, clock(tick))))
    decreases turns
  {
    hide OneTurn;
    match OneTurn(reg, clock, db, id, tick)
    case Again(db', tick') =>
      AgainRuns(reg, clock, db, id, tick);
      TurnKeepsRows(reg, clock, db, id, tick, db');
      RunSettles(reg, clock, db', id, tick', turns - 1);
    case Stop(_, _) =>
      StopSettles(reg, clock, db, id, tick);
  }

  /** A run only appends jobs, for its own workflow, and changes no other row. */
  lemma {:induction false} RunFrame(reg: Registry, clock: nat -> int, db: Db, id: string, tick: nat, turns: nat)
    requires RunUntilSuspended(reg, clock, db, id, tick, turns).Finished?
    ensures var after := RunUntilSuspended(reg, clock, db, id, tick, turns).db;
      && after.instances.Keys == db.instances.Keys
      && (forall other :: other in db.instances && other != id ==> after.instances[other] == db.instances[other])
      && (id in db.instances ==>
           after.instances[id].lease == None || after.instances[id].lease == db.instances[id].lease)
      && db.jobs <= after.jobs
      && (forall j :: |db.jobs| <= j < |after.jobs| ==> after.jobs[j].workflowId == id && after.jobs[j].status == Pending)
    ensures tick <= RunUntilSuspended(reg, clock, db, id, tick, turns).tick
    decreases turns
  {
    hide OneTurn;
    var turn := OneTurn(reg, clock, db, id, tick);
    TurnFrame(reg, clock, db, id, tick, turn.db);
    if turn.Again? {
      RunFrame(reg, clock, turn.db, id, turn.tick, turns - 1);
    }
  }

  /** A run consumes signals of its own workflow only; what was sent to any other stays as pending as it was. */
  lemma {:induction false} RunKeepsPending(
    reg: Registry, clock: nat -> int, db: Db, id: string, tick: nat, turns: nat, other: string, name: string, j: nat)
    requires RunUntilSuspended(reg, clock, db, id, tick, turns).Finished? && other != id
    ensures PendingAt(RunUntilSuspended(reg, clock, db, id, tick, turns).db.signals, other, name, j)
       <==> PendingAt(db.signals, other, name, j)
    decreases turns
  {
    hide OneTurn;
    var turn := OneTurn(reg, clock, db, id, tick);
    TurnFrame(reg, clock, db, id, tick, turn.db);
    if turn.Again? {
      RunKeepsPending(reg, clock, turn.db, id, turn.tick, turns - 1, other, name, j);
    }
  }

  /** A run leaves the signals' owners as they are. */
  lemma {:induction false} RunKeepsOwners(reg: Registry, clock: nat -> int, db: Db, id: string, tick: nat, turns: nat)
    requires RunUntilSuspended(reg, clock, db, id, tick, turns).Finished?
    requires forall j :: 0 <= j < |db.signals| ==> db.signals[j].workflowId in db.instances
    ensures var after := RunUntilSuspended(reg, clock, db, id, tick, turns).db;
      forall j :: 0 <= j < |after.signals| ==> after.signals[j].workflowId in after.instances
    decreases turns
  {
    hide OneTurn;
    var turn := OneTurn(reg, clock, db, id, tick);
    TurnFrame(reg, clock, db, id, tick, turn.db);
    if turn.Again? { RunKeepsOwners(reg, clock, turn.db, id, turn.tick, turns - 1); }
  }

  // ----- a whole job, with its lease -----

  ghost predicate NoLeases(db: Db) {
    forall id :: id in db.instances ==> db.instances[id].lease.None?
  }

  lemma LeaseIrrelevant(reg: Registry, db: Db, id: string, lease: Option<Lease>)
    requires RowsOk(reg, db) && id in db.instances
    ensures RowsOk(reg, PutRow(db, id, db.instances[id].(lease := lease)))
  {
    var after := PutRow(db, id, db.instances[id].(lease := lease));
    forall other | other in after.instances ensures RowOk(reg, after, other) {
      assert RowOk(reg, db, other);
      var def := reg.workflows[db.instances[other].workflow];
      var ch :| Explains(reg, def, db.instances[other], db.signals, other, ch);
      assert Explains(reg, def, after.instances[other], after.signals, other, ch);
    }
  }

  /** A job that returns keeps every row explained and leaves no lease behind. */
  lemma JobKeepsRows(reg: Registry, clock: nat -> int, db: Db, id: string, token: nat, leaseMs: int)
    requires RowsOk(reg, db) && NoLeases(db)
    requires RunJob(reg, clock, db, id, token, leaseMs).Finished?
    ensures var after := RunJob(reg, clock, db, id, token, leaseMs).db;
      RowsOk(reg, after) && NoLeases(after) && after.instances.Keys == db.instances.Keys
  {
    hide OneTurn;
    hide RowOk;
    if Leasable(db, id, clock(0)) {
      var leased := TakeLease(db, id, Lease(token, clock(0) + leaseMs));
      LeaseIrrelevant(reg, db, id, Some(Lease(token, clock(0) + leaseMs)));
      RunKeepsRows(reg, clock, leased, id, 1, MAX_TURNS);
      RunFrame(reg, clock, leased, id, 1, MAX_TURNS);
      var ran := RunUntilSuspended(reg, clock, leased, id, 1, MAX_TURNS).db;
      ReleasedTables(db, leased, ran, id, token);
      LeaseIrrelevant(reg, ran, id, None);
    }
  }

  /** What a job that returns has done for its workflow: completed it, or brought it to rest. */
  lemma JobRests(reg: Registry, clock: nat -> int, db: Db, id: string, token: nat, leaseMs: int)
    requires RowsOk(reg, db) && NoLeases(db) && Monotone(clock)
    requires RunJob(reg, clock, db, id, token, leaseMs).Finished? && id in db.instances
    ensures var after := RunJob(reg, clock, db, id, token, leaseMs).db;
      && id in after.instances
      && if Terminal(db.instances[id]) then after == db
         else
           || Settled(reg, after, id, |db.jobs|)
           || (after == db && db.instances[id].status != Running && TooEarly(reg, db, id, clock(1)))
  {
    hide OneTurn;
    if Leasable(db, id, clock(0)) {
      var leased := TakeLease(db, id, Lease(token, clock(0) + leaseMs));
      LeaseIrrelevant(reg, db, id, Some(Lease(token, clock(0) + leaseMs)));
      RunFrame(reg, clock, leased, id, 1, MAX_TURNS);
      RunSettles(reg, clock, leased, id, 1, MAX_TURNS);
      var ran := RunUntilSuspended(reg, clock, leased, id, 1, MAX_TURNS).db;
      ReleasedTables(db, leased, ran, id, token);
      SettledWithoutLease(reg, ran, id, |db.jobs|);
    }
  }

  lemma ReleasedTables(db: Db, leased: Db, ran: Db, id: string, token: nat)
    requires id in db.instances && id in leased.instances && id in ran.instances && db.instances[id].lease.None?
    requires exists expiry :: leased == TakeLease(db, id, Lease(token, expiry))
    requires ran.instances[id].lease == None || ran.instances[id].lease == leased.instances[id].lease
    ensures ReleaseLease(ran, id, token) == PutRow(ran, id, ran.instances[id].(lease := None))
    ensures ran == leased ==> ReleaseLease(ran, id, token) == db
  {
    assert ran.instances[id].lease.None? ==> ran.instances == ran.instances[id := ran.instances[id].(lease := None)];
    if ran == leased {
      assert db.instances == ran.instances[id := ran.instances[id].(lease := None)];
    }
  }

  lemma SettledWithoutLease(reg: Registry, db: Db, id: string, from: nat)
    requires id in db.instances
    ensures var after := PutRow(db, id, db.instances[id].(lease := None));
      Settled(reg, db, id, from) ==> Settled(reg, after, id, from)
  {
  }

  /** What a job that returns leaves alone. */
  lemma JobFrame(reg: Registry, clock: nat -> int, db: Db, id: string, token: nat, leaseMs: int)
    requires RunJob(reg, clock, db, id, token, leaseMs).Finished?
    ensures var after := RunJob(reg, clock, db, id, token, leaseMs).db;
      && (forall other :: other in db.instances && other != id ==>
           other in after.instances && after.instances[other] == db.instances[other])
      && db.jobs <= after.jobs
      && (forall j :: |db.jobs| <= j < |after.jobs| ==> after.jobs[j].workflowId == id && after.jobs[j].status == Pending)
    ensures RunJob(reg, clock, db, id, token, leaseMs).tick >= 1
  {
    hide RunUntilSuspended;
    if Leasable(db, id, clock(0)) {
      RunFrame(reg, clock, TakeLease(db, id, Lease(token, clock(0) + leaseMs)), id, 1, MAX_TURNS);
    }
  }

  lemma JobKeepsPending(
    reg: Registry, clock: nat -> int, db: Db, id: string, token: nat, leaseMs: int, other: string, name: string, j: nat)
    requires RunJob(reg, clock, db, id, token, leaseMs).Finished? && other != id
    ensures PendingAt(RunJob(reg, clock, db, id, token, leaseMs).db.signals, other, name, j)
       <==> PendingAt(db.signals, other, name, j)
  {
    hide RunUntilSuspended;
    if Leasable(db, id, clock(0)) {
      var leased := TakeLease(db, id, Lease(token, clock(0) + leaseMs));
      RunKeepsPending(reg, clock, leased, id, 1, MAX_TURNS, other, name, j);
    }
  }

  lemma JobKeepsOwners(reg: Registry, clock: nat -> int, db: Db, id: string, token: nat, leaseMs: int)
    requires RunJob(reg, clock, db, id, token, leaseMs).Finished?
    requires forall j :: 0 <= j < |db.signals| ==> db.signals[j].workflowId in db.instances
    ensures var after := RunJob(reg, clock, db, id, token, leaseMs).db;
      forall j :: 0 <= j < |after.signals| ==> after.signals[j].workflowId in after.instances
  {
    hide RunUntilSuspended;
    if Leasable(db, id, clock(0)) {
      RunKeepsOwners(reg, clock, TakeLease(db, id, Lease(token, clock(0) + leaseMs)), id, 1, MAX_TURNS);
    }
  }

  // ----- rows only move forward -----

  /** The row kept its workflow and input, did not go back, and stayed put if it was finished. */
  predicate MovedForward(before: Row, after: Row) {
    && after.workflow == before.workflow && after.input == before.input
    && after.stepIndex >= before.stepIndex
    && (Terminal(before) ==> after == before)
  }

  lemma TurnMovesForward(reg: Registry, clock: nat -> int, db: Db, id: string, tick: nat, after: Db)
    requires TurnTo(reg, clock, db, id, tick, after) && id in db.instances && RowOk(reg, db, id)
    ensures id in after.instances && MovedForward(db.instances[id], after.instances[id])
  {
  }

  lemma {:induction false} RunMovesForward(reg: Registry, clock: nat -> int, db: Db, id: string, tick: nat, turns: nat)
    requires RowsOk(reg, db) && id in db.instances
    requires RunUntilSuspended(reg, clock, db, id, tick, turns).Finished?
    ensures var after := RunUntilSuspended(reg, clock, db, id, tick, turns).db;
      id in after.instances && MovedForward(db.instances[id], after.instances[id])
    decreases turns
  {
    hide OneTurn;
    hide RowOk;
    assert RowOk(reg, db, id);
    match OneTurn(reg, clock, db, id, tick)
    case Stop(db', _) =>
      TurnMovesForward(reg, clock, db, id, tick, db');
    case Again(db', tick') =>
      TurnMovesForward(reg, clock, db, id, tick, db');
      TurnKeepsRows(reg, clock, db, id, tick, db');
      RunMovesForward(reg, clock, db', id, tick', turns - 1);
  }

  lemma JobMovesForward(reg: Registry, clock: nat -> int, db: Db, id: string, token: nat, leaseMs: int)
    requires RowsOk(reg, db) && NoLeases(db) && id in db.instances
    requires RunJob(reg, clock, db, id, token, leaseMs).Finished?
    ensures var after := RunJob(reg, clock, db, id, token, leaseMs).db;
      id in after.instances && MovedForward(db.instances[id], after.instances[id])
  {
    hide RunUntilSuspended;
    if Leasable(db, id, clock(0)) {
      LeaseIrrelevant(reg, db, id, Some(Lease(token, clock(0) + leaseMs)));
      RunMovesForward(reg, clock, TakeLease(db, id, Lease(token, clock(0) + leaseMs)), id, 1, MAX_TURNS);
    }
  }

  // ----- the limit on turns -----

  /** Turns a workflow can still need: one a step, one to wake up, one to finish. */
  function Budget(steps: seq<Step>, row: Row): int {
    |steps| - row.stepIndex + 1 + if row.status == Sleeping then 1 else 0
  }

  lemma TurnSpends(reg: Registry, clock: nat -> int, db: Db, id: string, tick: nat)
    requires id in db.instances && RowOk(reg, db, id)
    requires OneTurn(reg, clock, db, id, tick).Again?
    ensures var steps := reg.workflows[db.instances[id].workflow].steps;
      var after := OneTurn(reg, clock, db, id, tick).db;
      && id in after.instances && after.instances[id].workflow == db.instances[id].workflow
      && Budget(steps, after.instances[id]) < Budget(steps, db.instances[id])
  {
  }

  lemma {:induction false} EnoughTurns(reg: Registry, clock: nat -> int, db: Db, id: string, tick: nat, turns: nat)
    requires RowsOk(reg, db) && id in db.instances && turns > 0
    requires Budget(reg.workflows[db.instances[id].workflow].steps, db.instances[id]) <= turns
    ensures !RunUntilSuspended(reg, clock, db, id, tick, turns).OutOfTurns?
    decreases turns
  {
    hide OneTurn;
    match OneTurn(reg, clock, db, id, tick)
    case Again(db', tick') =>
      TurnSpends(reg, clock, db, id, tick);
      TurnKeepsRows(reg, clock, db, id, tick, db');
      EnoughTurns(reg, clock, db', id, tick', turns - 1);
    case _ =>
  }

  /** With at most 1023 steps no run is ever cut off by the turn limit, whatever row it starts from. */
  lemma LimitNeverReached(reg: Registry, clock: nat -> int, db: Db, id: string, tick: nat)
    requires RowsOk(reg, db) && id in db.instances
    requires |reg.workflows[db.instances[id].workflow].steps| < MAX_TURNS
    ensures !RunUntilSuspended(reg, clock, db, id, tick, MAX_TURNS).OutOfTurns?
  {
    assert RowOk(reg, db, id);
    EnoughTurns(reg, clock, db, id, tick, MAX_TURNS);
  }

  /** Every step is an action and none of its callbacks throws. */
  ghost predicate AllImmediate(reg: Registry, steps: seq<Step>) {
    forall step :: step in steps ==> Immediate(reg, step)
  }

  ghost predicate Immediate(reg: Registry, step: Step) {
    step.ActionStep? && forall input, state :: RunAction(reg, step, input, state).Ok?
  }

  /**
   The limit is exact: a running workflow of immediate steps completes in one run if the steps left
   are fewer than the turns, and otherwise throws away the whole run, every time it is retried.
   */
  lemma {:induction false} LimitExact(reg: Registry, clock: nat -> int, db: Db, id: string, tick: nat, turns: nat)
    requires id in db.instances && db.instances[id].workflow in reg.workflows && db.instances[id].status == Running
    requires AllImmediate(reg, reg.workflows[db.instances[id].workflow].steps)
    requires db.instances[id].stepIndex <= |reg.workflows[db.instances[id].workflow].steps|
    ensures RunUntilSuspended(reg, clock, db, id, tick, turns).OutOfTurns?
       <==> |reg.workflows[db.instances[id].workflow].steps| - db.instances[id].stepIndex >= turns
    ensures !RunUntilSuspended(reg, clock, db, id, tick, turns).StepThrew?
    decreases turns
  {
    var row := db.instances[id];
    var steps := reg.workflows[row.workflow].steps;
    if turns > 0 && row.stepIndex < |steps| {
      assert Immediate(reg, steps[row.stepIndex]);
      var turn := OneTurn(reg, clock, db, id, tick);
      LimitExact(reg, clock, turn.db, id, turn.tick, turns - 1);
    }
  }
}

/**
 Workers driving workflows through the queue: starts, signals, claims, runs, completions, failures,
 crashes and lease expiries in any interleaving. Each run is one transaction, so it is one step, and so is a
 start or signal made inside a transaction; outside of one, from a lifecycle hook, it is several.
 */
module WorkflowProtocol {
  import opened Wrappers
  import opened Json
  import opened WorkflowModel
  import opened WorkflowSignals
  import opened WorkflowRefinement
  import opened WorkflowRuns

  /** What a worker has done with the job it holds. */
  datatype Phase = Claimed | Ran | Failing

  datatype Holding = Holding(job: nat, claimedAt: int, phase: Phase)

  /** Where a start or a signal outside a transaction stands: it found its workflow, or wrote its row and owes the job. */
  datatype Call = Found(id: string, name: string, payload: Json) | Owes(id: string)

  /**
   `due` remembers when each job was first meant to be available: retries push `availableAt` on.
   `unanswered` remembers the workflows that a call outside a transaction wrote to when none of their jobs was
   left to run, until a job is enqueued for them, is run, or is handed back to the queue.
   */
  datatype System = System(
    db: Db, due: seq<int>, clock: int, workers: map<nat, Holding>, calls: map<nat, Call>, unanswered: set<string>)

  datatype Action =
    | Tick(ms: nat)
    | Start(id: string, workflow: (string, int), input: Json)
    | Send(id: string, name: string, payload: Json)
    | StartRow(caller: nat, id: string, workflow: (string, int), input: Json)
    | Look(caller: nat, id: string, name: string, payload: Json)
    | SendRow(caller: nat)
    | EnqueueJob(caller: nat)
    | Cut(caller: nat)
    | Claim(worker: nat, job: nat, leaseMs: int)
    | RunClaimed(worker: nat, clock: nat -> int, token: nat, leaseMs: int)
    | RollBack(worker: nat)
    | Complete(worker: nat)
    | Fail(worker: nat, retryDelayMs: nat, exhausted: bool)
    | Die(worker: nat)

  predicate Claimable(job: Job, now: int) {
    || (job.status == Pending && job.availableAt <= now)
    || (job.status == Processing && job.leaseExpiresAt.Some? && job.leaseExpiresAt.value <= now)
  }

  function SetJob(db: Db, j: nat, job: Job): Db
    requires j < |db.jobs|
  {
    db.(jobs := db.jobs[j := job])
  }

  predicate Holds(s: System, w: nat, phase: Phase) {
    w in s.workers && s.workers[w].phase == phase && s.workers[w].job < |s.db.jobs|
  }

  ghost predicate Enabled(reg: Registry, s: System, a: Action) {
    match a
    case Tick(_) => true
    case Start(id, workflow, input) => StartWorkflow(reg, s.db, id, workflow, input, s.clock).Some?
    case Send(id, name, payload) => SignalWorkflow(s.db, id, name, payload, s.clock).Some?
    case StartRow(c, id, workflow, input) => c !in s.calls && InsertInstance(reg, s.db, id, workflow, input).Some?
    case Look(c, id, _, _) => c !in s.calls && Signalable(s.db, id)
    // the workflow may have ended since it was found
    case SendRow(c) => c in s.calls && s.calls[c].Found?
    case EnqueueJob(c) => c in s.calls && s.calls[c].Owes?
    // the process stops, or the statement fails
    case Cut(c) => c in s.calls
    case Claim(w, j, _) => w !in s.workers && j < |s.db.jobs| && Claimable(s.db.jobs[j], s.clock)
    case RunClaimed(w, clock, _, _) => Holds(s, w, Claimed) && Monotone(clock) && clock(0) >= s.clock
    // the commit fails, or anything else in the transaction does
    case RollBack(w) => Holds(s, w, Claimed)
    case Complete(w) => Holds(s, w, Ran)
    // a run that was committed is reported failed when its fan-out throws
    case Fail(w, _, _) => Holds(s, w, Failing) || Holds(s, w, Ran)
    case Die(w) => w in s.workers
  }

  /** New jobs are due when they are first available. */
  function Extend(due: seq<int>, jobs: seq<Job>): seq<int>
    requires |due| <= |jobs|
    ensures |Extend(due, jobs)| == |jobs|
  {
    due + seq(|jobs| - |due|, i requires 0 <= i < |jobs| - |due| => jobs[|due| + i].availableAt)
  }

  /** Every job has a due time. */
  predicate Aligned(s: System) {
    |s.due| == |s.db.jobs|
  }

  /** A job that will still run: not completed, and not about to be completed by a worker that ran it. */
  ghost predicate WillRun(s: System, id: string, j: nat) {
    && j < |s.db.jobs| && s.db.jobs[j].workflowId == id && s.db.jobs[j].status != Done
    && forall w :: w in s.workers && s.workers[w].job == j ==> s.workers[w].phase != Ran
  }

  ghost predicate HasLiveJob(s: System, id: string, wake: int)
    requires |s.due| == |s.db.jobs|
  {
    exists j: nat :: WillRun(s, id, j) && s.due[j] >= wake
  }

  ghost predicate HasAnyLiveJob(s: System, id: string) {
    exists j: nat :: WillRun(s, id, j)
  }

  /** A call that writes to a workflow leaves it unanswered if none of its jobs is left to run. */
  ghost function Asked(s: System, id: string): set<string> {
    if HasAnyLiveJob(s, id) then s.unanswered else s.unanswered + {id}
  }

  /** The job of a failed worker: pending again after a delay, or given up. */
  function Reported(s: System, w: nat, retryDelayMs: nat, exhausted: bool): System
    requires w in s.workers && s.workers[w].job < |s.db.jobs|
  {
    var j := s.workers[w].job;
    var job := s.db.jobs[j].(status := if exhausted then Exhausted else Pending,
                             availableAt := s.clock + retryDelayMs, leaseExpiresAt := None);
    s.(db := SetJob(s.db, j, job), workers := s.workers - {w})
  }

  /** A job that was run is handed back if its last worker that ran it dies or reports a failure. */
  ghost function HandBack(s: System, j: nat): System {
    if j < |s.db.jobs| && WillRun(s, s.db.jobs[j].workflowId, j)
    then s.(unanswered := s.unanswered - {s.db.jobs[j].workflowId}) else s
  }

  ghost function Apply(reg: Registry, s: System, a: Action): (t: System)
    requires Aligned(s) && Enabled(reg, s, a)
    ensures Aligned(t)
  {
    match a
    case Tick(ms) => s.(clock := s.clock + ms)
    case Start(id, workflow, input) =>
      var db := StartWorkflow(reg, s.db, id, workflow, input, s.clock).value;
      s.(db := db, due := s.due + [s.clock], unanswered := s.unanswered - {id})
    case Send(id, name, payload) =>
      var db := SignalWorkflow(s.db, id, name, payload, s.clock).value;
      s.(db := db, due := s.due + [s.clock], unanswered := s.unanswered - {id})
    case StartRow(c, id, workflow, input) =>
      s.(db := InsertInstance(reg, s.db, id, workflow, input).value, calls := s.calls[c := Owes(id)],
         unanswered := Asked(s, id))
    case Look(c, id, name, payload) => s.(calls := s.calls[c := Found(id, name, payload)])
    case SendRow(c) =>
      var call := s.calls[c];
      s.(db := InsertSignal(s.db, call.id, call.name, call.payload), calls := s.calls[c := Owes(call.id)],
         unanswered := Asked(s, call.id))
    case EnqueueJob(c) =>
      var id := s.calls[c].id;
      s.(db := Enqueue(s.db, id, s.clock), due := s.due + [s.clock], calls := s.calls - {c},
         unanswered := s.unanswered - {id})
    case Cut(c) => s.(calls := s.calls - {c})
    case Claim(w, j, leaseMs) =>
      var job := s.db.jobs[j].(status := Processing, leaseExpiresAt := Some(s.clock + leaseMs));
      s.(db := SetJob(s.db, j, job), workers := s.workers[w := Holding(j, s.clock, Claimed)])
    case RunClaimed(w, clock, token, leaseMs) => AfterRun(reg, s, w, clock, token, leaseMs)
    case RollBack(w) => s.(workers := s.workers[w := s.workers[w].(phase := Failing)])
    case Complete(w) =>
      var j := s.workers[w].job;
      s.(db := SetJob(s.db, j, s.db.jobs[j].(status := Done, leaseExpiresAt := None)), workers := s.workers - {w})
    case Fail(w, retryDelayMs, exhausted) => HandBack(Reported(s, w, retryDelayMs, exhausted), s.workers[w].job)
    case Die(w) => HandBack(s.(workers := s.workers - {w}), s.workers[w].job)
  }

  /** A run that returns commits its tables; one that throws leaves them as they were. */
  ghost function AfterRun(reg: Registry, s: System, w: nat, clock: nat -> int, token: nat, leaseMs: int): (t: System)
    requires Aligned(s) && Holds(s, w, Claimed)
    ensures Aligned(t)
  {
    var held := s.workers[w];
    var id := s.db.jobs[held.job].workflowId;
    match RunJob(reg, clock, s.db, id, token, leaseMs)
    case Finished(db, ticks) =>
      JobFrame(reg, clock, s.db, id, token, leaseMs);
      s.(db := db, due := Extend(s.due, db.jobs), clock := Max(s.clock, clock(ticks)),
         workers := s.workers[w := held.(phase := Ran)], unanswered := s.unanswered - {id})
    case _ => s.(workers := s.workers[w := held.(phase := Failing)])
  }

  predicate Initial(s: System) {
    s.db == Db(map[], [], []) && s.due == [] && s.workers == map[] && s.calls == map[] && s.unanswered == {}
  }

  // ----- the invariant -----

  /** A job is left to run, or nobody has answered for one yet. */
  ghost predicate HasWork(s: System, id: string) {
    id in s.unanswered || HasAnyLiveJob(s, id)
  }

  /** What a resting workflow needs to be woken is there. */
  ghost predicate Awaited(reg: Registry, s: System, id: string)
    requires |s.due| == |s.db.jobs| && id in s.db.instances
  {
    var row := s.db.instances[id];
    && (row.status == Running ==> HasWork(s, id))
    && (row.wakeAt.Some? ==> HasLiveJob(s, id, row.wakeAt.value))
    && (row.status == WaitingSignal && !NoPending(reg, s.db, id) ==> HasWork(s, id))
  }

  ghost predicate Inv(reg: Registry, s: System) {
    && |s.due| == |s.db.jobs|
    && RowsOk(reg, s.db) && NoLeases(s.db) && Owned(s.db)
    && (forall id :: id in s.db.instances ==> Awaited(reg, s, id))
    && Quiet(s) && (forall c :: c in s.calls ==> s.calls[c].id in s.db.instances)
    && WorkersOk(s) && JobsOk(s)
  }

  /** Workers hold jobs that were due when they were claimed. */
  ghost predicate WorkersOk(s: System) {
    forall w :: w in s.workers ==>
      s.workers[w].job < |s.due| && s.due[s.workers[w].job] <= s.workers[w].claimedAt <= s.clock
  }

  ghost predicate JobsOk(s: System)
    requires |s.due| == |s.db.jobs|
  {
    forall j :: 0 <= j < |s.due| ==> JobOk(s.db.jobs[j], s.due[j], s.clock)
  }

  /** Every signal was sent to an existing workflow, and every job is for one. */
  predicate Owned(db: Db) {
    && (forall j :: 0 <= j < |db.signals| ==> db.signals[j].workflowId in db.instances)
    && (forall j :: 0 <= j < |db.jobs| ==> db.jobs[j].workflowId in db.instances)
  }

  /** Nothing is left to run for an unanswered workflow. */
  ghost predicate Quiet(s: System) {
    forall id :: id in s.unanswered ==> !HasAnyLiveJob(s, id)
  }

  /** No job is available before it is due, and one being processed was due and will come free again. */
  predicate JobOk(job: Job, due: int, clock: int) {
    && due <= job.availableAt
    && (job.status == Processing ==> due <= clock && job.leaseExpiresAt.Some?)
  }

  // ----- every action keeps it -----

  /** Appending jobs and changing nothing a live job depends on keeps it live. */
  lemma LiveJobsCarryOver(s: System, t: System, id: string, wake: int)
    requires |s.due| == |s.db.jobs| && |t.due| == |t.db.jobs| && s.due <= t.due
    requires forall j: nat :: WillRun(s, id, j) ==> WillRun(t, id, j)
    ensures HasLiveJob(s, id, wake) ==> HasLiveJob(t, id, wake)
    ensures HasAnyLiveJob(s, id) ==> HasAnyLiveJob(t, id)
  {
    if HasLiveJob(s, id, wake) {
      var j: nat :| WillRun(s, id, j) && s.due[j] >= wake;
      assert WillRun(t, id, j) && t.due[j] >= wake;
    }
  }

  lemma AwaitedCarriesOver(reg: Registry, s: System, t: System, id: string)
    requires |s.due| == |s.db.jobs| && |t.due| == |t.db.jobs| && s.due <= t.due
    requires id in s.db.instances && id in t.db.instances && t.db.instances[id] == s.db.instances[id]
    requires forall name, j: nat :: PendingAt(t.db.signals, id, name, j) <==> PendingAt(s.db.signals, id, name, j)
    requires forall j: nat :: WillRun(s, id, j) ==> WillRun(t, id, j)
    requires id in s.unanswered ==> HasWork(t, id)
    requires Awaited(reg, s, id)
    ensures Awaited(reg, t, id)
  {
    var row := s.db.instances[id];
    LiveJobsCarryOver(s, t, id, if row.wakeAt.Some? then row.wakeAt.value else 0);
    assert NoPending(reg, s.db, id) <==> NoPending(reg, t.db, id) by {
      SamePending(reg, s.db, t.db, id);
      SamePending(reg, t.db, s.db, id);
    }
  }

  lemma SamePending(reg: Registry, a: Db, b: Db, id: string)
    requires id in a.instances && id in b.instances && a.instances[id] == b.instances[id]
    requires forall name, j: nat :: PendingAt(a.signals, id, name, j) <==> PendingAt(b.signals, id, name, j)
    ensures NoPending(reg, a, id) ==> NoPending(reg, b, id)
  {
  }

  /** A start or a signal: one row or signal more, and a job for it. */
  lemma NewJobWakes(s: System, t: System, id: string, due: int)
    requires |s.due| == |s.db.jobs| && t.due == s.due + [due]
    requires t.db.jobs == s.db.jobs + [Job(id, due, Pending, None)] && t.workers == s.workers
    requires forall w :: w in s.workers ==> s.workers[w].job < |s.due|
    requires Quiet(s) && t.unanswered == s.unanswered - {id}
    ensures forall other, j: nat :: WillRun(s, other, j) ==> WillRun(t, other, j)
    ensures HasAnyLiveJob(t, id) && Quiet(t)
  {
    assert WillRun(t, id, |s.db.jobs|);
    forall other, j: nat | other != id && WillRun(t, other, j) ensures WillRun(s, other, j) {
    }
  }

  lemma StartKeepsRows(reg: Registry, db: Db, id: string, workflow: (string, int), input: Json)
    requires RowsOk(reg, db) && Owned(db) && InsertInstance(reg, db, id, workflow, input).Some?
    ensures RowsOk(reg, InsertInstance(reg, db, id, workflow, input).value)
  {
    var after := InsertInstance(reg, db, id, workflow, input).value;
    forall other | other in after.instances ensures RowOk(reg, after, other) {
      if other == id {
        var def := reg.workflows[workflow];
        forall name ensures StreamAt(def.steps, after.signals, id, [], name) {
          NothingSent(after.signals, id, name);
        }
        assert Explains(reg, def, after.instances[id], after.signals, id, []);
      } else {
        assert RowOk(reg, db, other);
        var def := reg.workflows[db.instances[other].workflow];
        var ch :| Explains(reg, def, db.instances[other], db.signals, other, ch);
        assert Explains(reg, def, after.instances[other], after.signals, other, ch);
      }
    }
  }

  lemma NothingSent(signals: seq<Signal>, id: string, name: string)
    requires forall j :: 0 <= j < |signals| ==> signals[j].workflowId != id
    ensures ConsumedInOrder(signals, id, name, 0)
  {
  }

  lemma SendKeepsRows(reg: Registry, db: Db, signal: Signal)
    requires RowsOk(reg, db) && !signal.consumed
    ensures RowsOk(reg, db.(signals := db.signals + [signal]))
  {
    var after := db.(signals := db.signals + [signal]);
    forall id | id in after.instances ensures RowOk(reg, after, id) {
      assert RowOk(reg, db, id);
      var row := db.instances[id];
      var def := reg.workflows[row.workflow];
      var ch :| Explains(reg, def, row, db.signals, id, ch);
      forall name
        ensures Sent(db.signals, id, name) <= Sent(after.signals, id, name)
        ensures StreamAt(def.steps, after.signals, id, ch, name)
      {
        assert StreamAt(def.steps, db.signals, id, ch, name);
        SendAppends(db.signals, signal, id, name, TakenBefore(def.steps, ch, name, |ch|));
      }
      PassKeepsUp(reg, def, row.input, db.signals, after.signals, id, ch, ch, |ch|);
      assert Explains(reg, def, after.instances[id], after.signals, id, ch);
    }
  }

  lemma JobsChangeKeepsRows(reg: Registry, db: Db, jobs: seq<Job>)
    requires RowsOk(reg, db)
    ensures RowsOk(reg, db.(jobs := jobs))
  {
    var after := db.(jobs := jobs);
    forall id | id in after.instances ensures RowOk(reg, after, id) {
      assert RowOk(reg, db, id);
    }
  }

  lemma StartKeepsInv(reg: Registry, s: System, a: Action)
    requires Inv(reg, s) && Enabled(reg, s, a) && a.Start?
    ensures Inv(reg, Apply(reg, s, a))
  {
    hide RowOk;
    var t := Apply(reg, s, a);
    StartKeepsRows(reg, s.db, a.id, a.workflow, a.input);
    JobsChangeKeepsRows(reg, s.db.(instances := t.db.instances), t.db.jobs);
    NewJobWakes(s, t, a.id, s.clock);
    forall id | id in t.db.instances ensures Awaited(reg, t, id) {
      if id != a.id { AwaitedCarriesOver(reg, s, t, id); }
    }
  }

  /** What stays awaited when a workflow gets a signal, a job for it, or both. */
  lemma AwaitedAfterCall(reg: Registry, s: System, t: System, id: string)
    requires Inv(reg, s) && |t.due| == |t.db.jobs| && s.due <= t.due && t.db.instances == s.db.instances
    requires t.db.signals == s.db.signals
      || exists name, payload :: t.db.signals == s.db.signals + [Signal(id, name, payload, false)]
    requires forall other, j: nat :: WillRun(s, other, j) ==> WillRun(t, other, j)
    requires HasWork(t, id) && forall other :: other in s.unanswered && other != id ==> other in t.unanswered
    ensures forall other :: other in t.db.instances ==> Awaited(reg, t, other)
  {
    forall other | other in t.db.instances ensures Awaited(reg, t, other) {
      if other != id {
        AwaitedCarriesOver(reg, s, t, other);
      } else {
        var row := s.db.instances[id];
        LiveJobsCarryOver(s, t, id, if row.wakeAt.Some? then row.wakeAt.value else 0);
      }
    }
  }

  lemma SendKeepsInv(reg: Registry, s: System, a: Action)
    requires Inv(reg, s) && Enabled(reg, s, a) && a.Send?
    ensures Inv(reg, Apply(reg, s, a))
  {
    hide RowOk;
    var t := Apply(reg, s, a);
    SendKeepsRows(reg, s.db, Signal(a.id, a.name, a.payload, false));
    JobsChangeKeepsRows(reg, s.db.(signals := t.db.signals), t.db.jobs);
    NewJobWakes(s, t, a.id, s.clock);
    AwaitedAfterCall(reg, s, t, a.id);
  }

  lemma StartRowKeepsInv(reg: Registry, s: System, a: Action)
    requires Inv(reg, s) && Enabled(reg, s, a) && a.StartRow?
    ensures Inv(reg, Apply(reg, s, a))
  {
    hide RowOk;
    var t := Apply(reg, s, a);
    StartKeepsRows(reg, s.db, a.id, a.workflow, a.input);
    WriteKeepsLive(s, t, a.id);
    hide WillRun;
    forall id | id in t.db.instances ensures Awaited(reg, t, id) {
      if id != a.id { AwaitedCarriesOver(reg, s, t, id); }
    }
  }

  lemma SendRowKeepsInv(reg: Registry, s: System, a: Action)
    requires Inv(reg, s) && Enabled(reg, s, a) && a.SendRow?
    ensures Inv(reg, Apply(reg, s, a))
  {
    hide RowOk;
    var t := Apply(reg, s, a);
    var call := s.calls[a.caller];
    SendKeepsRows(reg, s.db, Signal(call.id, call.name, call.payload, false));
    WriteKeepsLive(s, t, call.id);
    hide WillRun;
    AwaitedAfterCall(reg, s, t, call.id);
  }

  lemma EnqueueKeepsInv(reg: Registry, s: System, a: Action)
    requires Inv(reg, s) && Enabled(reg, s, a) && a.EnqueueJob?
    ensures Inv(reg, Apply(reg, s, a))
  {
    hide RowOk;
    var t := Apply(reg, s, a);
    JobsChangeKeepsRows(reg, s.db, t.db.jobs);
    NewJobWakes(s, t, s.calls[a.caller].id, s.clock);
    hide WillRun;
    AwaitedAfterCall(reg, s, t, s.calls[a.caller].id);
  }

  /** Finding a workflow and being cut off change no table. */
  lemma CallKeepsInv(reg: Registry, s: System, a: Action)
    requires Inv(reg, s) && Enabled(reg, s, a) && (a.Look? || a.Cut?)
    ensures Inv(reg, Apply(reg, s, a))
  {
    hide RowOk;
    var t := Apply(reg, s, a);
    assert forall id, j: nat :: WillRun(t, id, j) <==> WillRun(s, id, j);
    hide WillRun;
    forall id | id in t.db.instances ensures Awaited(reg, t, id) { AwaitedCarriesOver(reg, s, t, id); }
  }

  lemma WriteKeepsLive(s: System, t: System, id: string)
    requires Quiet(s) && t.db.jobs == s.db.jobs && t.workers == s.workers && t.unanswered == Asked(s, id)
    ensures Quiet(t) && HasWork(t, id)
    ensures forall other, j: nat :: WillRun(t, other, j) <==> WillRun(s, other, j)
  {
    assert forall other, j: nat :: WillRun(t, other, j) <==> WillRun(s, other, j);
  }

  /** Claiming, completing, failing and dying change one job and one worker. */
  lemma BookkeepingKeepsInv(reg: Registry, s: System, a: Action)
    requires Inv(reg, s) && Enabled(reg, s, a)
    requires a.Tick? || a.Claim? || a.RollBack? || a.Complete? || a.Fail? || a.Die?
    ensures Inv(reg, Apply(reg, s, a))
  {
    hide RowOk;
    hide WillRun;
    hide HasWork;
    hide NoPending;
    var t := Apply(reg, s, a);
    JobsChangeKeepsRows(reg, s.db, t.db.jobs);
    BookkeepingKeepsLive(reg, s, a);
    BookkeepingKeepsJobs(reg, s, a);
    BookkeepingKeepsWorkers(reg, s, a);
    hide Apply;
    forall id | id in t.db.instances ensures Awaited(reg, t, id) {
      AwaitedCarriesOver(reg, s, t, id);
    }
  }

  lemma BookkeepingKeepsJobs(reg: Registry, s: System, a: Action)
    requires Aligned(s) && Owned(s.db) && JobsOk(s) && WorkersOk(s) && Enabled(reg, s, a)
    requires a.Tick? || a.Claim? || a.RollBack? || a.Complete? || a.Fail? || a.Die?
    ensures var t := Apply(reg, s, a);
      && t.db == s.db.(jobs := t.db.jobs) && t.due == s.due && t.calls == s.calls && t.clock >= s.clock && Owned(t.db)
      && JobsOk(t)
  {
    hide WillRun;
    match a
    case Claim(w, j, _) =>
      assert JobOk(s.db.jobs[j], s.due[j], s.clock);
    case Fail(w, _, _) =>
      var j := s.workers[w].job;
      assert JobOk(s.db.jobs[j], s.due[j], s.clock);
    case _ =>
  }

  lemma BookkeepingKeepsWorkers(reg: Registry, s: System, a: Action)
    requires Aligned(s) && JobsOk(s) && WorkersOk(s) && Enabled(reg, s, a)
    requires a.Tick? || a.Claim? || a.RollBack? || a.Complete? || a.Fail? || a.Die?
    ensures WorkersOk(Apply(reg, s, a))
  {
    hide WillRun;
    if a.Claim? { assert JobOk(s.db.jobs[a.job], s.due[a.job], s.clock); }
  }

  lemma BookkeepingKeepsLive(reg: Registry, s: System, a: Action)
    requires Inv(reg, s) && Enabled(reg, s, a)
    requires a.Tick? || a.Claim? || a.RollBack? || a.Complete? || a.Fail? || a.Die?
    ensures var t := Apply(reg, s, a);
      && (forall id, j: nat :: WillRun(s, id, j) ==> WillRun(t, id, j))
      && (forall id :: id in s.unanswered ==> HasWork(t, id)) && Quiet(t)
  {
    hide Awaited;
    hide RowOk;
    match a
    case Fail(w, retryDelayMs, exhausted) => ReportedLive(s, w, retryDelayMs, exhausted);
    case Die(w) => DeadLive(s, w);
    case _ => OthersLive(reg, s, a);
  }

  lemma OthersLive(reg: Registry, s: System, a: Action)
    requires Quiet(s) && Aligned(s) && Enabled(reg, s, a) && (a.Tick? || a.Claim? || a.RollBack? || a.Complete?)
    ensures var t := Apply(reg, s, a);
      t.unanswered == s.unanswered && Quiet(t) && forall id, j: nat :: WillRun(s, id, j) <==> WillRun(t, id, j)
  {
    var t := Apply(reg, s, a);
    forall id, j: nat ensures WillRun(s, id, j) <==> WillRun(t, id, j) {
      if WillRun(s, id, j) { LiveCarriesOver(s, t, id, j); }
      if WillRun(t, id, j) { LiveCarriesOver(t, s, id, j); }
    }
  }

  lemma LiveCarriesOver(s: System, t: System, id: string, j: nat)
    requires WillRun(s, id, j) && j < |t.db.jobs| && t.db.jobs[j].workflowId == id && t.db.jobs[j].status != Done
    requires forall w :: w in t.workers && t.workers[w].job == j && t.workers[w].phase == Ran ==>
      w in s.workers && s.workers[w].job == j && s.workers[w].phase == Ran
    ensures WillRun(t, id, j)
  {
  }

  /** When a worker goes whose job is then not completed, only its own job can come back to life. */
  lemma WorkerGone(s: System, u: System, w: nat, id: string, k: nat)
    requires w in s.workers && u.workers == s.workers - {w} && |u.db.jobs| == |s.db.jobs|
    requires forall i :: 0 <= i < |s.db.jobs| ==> u.db.jobs[i].workflowId == s.db.jobs[i].workflowId
    requires forall i :: 0 <= i < |s.db.jobs| && s.db.jobs[i].status != Done ==> u.db.jobs[i].status != Done
    requires forall i :: 0 <= i < |s.db.jobs| && i != s.workers[w].job ==> u.db.jobs[i] == s.db.jobs[i]
    ensures WillRun(s, id, k) ==> WillRun(u, id, k)
    ensures WillRun(u, id, k) && k != s.workers[w].job ==> WillRun(s, id, k)
  {
    if WillRun(s, id, k) { LiveCarriesOver(s, u, id, k); }
    if WillRun(u, id, k) && k != s.workers[w].job { LiveCarriesOver(u, s, id, k); }
  }

  lemma ReportedLive(s: System, w: nat, retryDelayMs: nat, exhausted: bool)
    requires Quiet(s) && (Holds(s, w, Failing) || Holds(s, w, Ran))
    ensures var t := HandBack(Reported(s, w, retryDelayMs, exhausted), s.workers[w].job);
      && (forall id, j: nat :: WillRun(s, id, j) ==> WillRun(t, id, j))
      && (forall id :: id in s.unanswered ==> HasWork(t, id)) && Quiet(t)
  {
    var u := Reported(s, w, retryDelayMs, exhausted);
    forall id, k: nat
      ensures WillRun(s, id, k) ==> WillRun(u, id, k)
      ensures WillRun(u, id, k) && k != s.workers[w].job ==> WillRun(s, id, k)
    {
      WorkerGone(s, u, w, id, k);
    }
    HandedBack(s, u, s.workers[w].job);
  }

  lemma DeadLive(s: System, w: nat)
    requires Quiet(s) && w in s.workers
    ensures var t := HandBack(s.(workers := s.workers - {w}), s.workers[w].job);
      && (forall id, j: nat :: WillRun(s, id, j) ==> WillRun(t, id, j))
      && (forall id :: id in s.unanswered ==> HasWork(t, id)) && Quiet(t)
  {
    var u := s.(workers := s.workers - {w});
    forall id, k: nat
      ensures WillRun(s, id, k) ==> WillRun(u, id, k)
      ensures WillRun(u, id, k) && k != s.workers[w].job ==> WillRun(s, id, k)
    {
      WorkerGone(s, u, w, id, k);
    }
    HandedBack(s, u, s.workers[w].job);
  }

  /** Only job `j` may have come back to life, and then its workflow is not unanswered any more. */
  lemma HandedBack(s: System, u: System, j: nat)
    requires Quiet(s) && u.unanswered == s.unanswered
    requires forall id, k: nat :: WillRun(s, id, k) ==> WillRun(u, id, k)
    requires forall id, k: nat :: WillRun(u, id, k) && k != j ==> WillRun(s, id, k)
    ensures var t := HandBack(u, j);
      && (forall id, k: nat :: WillRun(t, id, k) <==> WillRun(u, id, k))
      && (forall id :: id in s.unanswered ==> HasWork(t, id)) && Quiet(t)
  {
    var t := HandBack(u, j);
    assert forall id, k: nat :: WillRun(t, id, k) <==> WillRun(u, id, k);
    forall id | id in s.unanswered ensures HasWork(t, id) {
      if id !in t.unanswered { assert WillRun(t, id, j); }
    }
    assert forall id, k: nat :: id in t.unanswered && WillRun(t, id, k) ==> k != j;
  }

  lemma RunKeepsInv(reg: Registry, s: System, a: Action)
    requires Inv(reg, s) && Enabled(reg, s, a) && a.RunClaimed?
    ensures Inv(reg, Apply(reg, s, a))
  {
    hide RunJob;
    hide RowOk;
    hide WillRun;
    var t := Apply(reg, s, a);
    var id := s.db.jobs[s.workers[a.worker].job].workflowId;
    RunQuiet(reg, s, a);
    if RunJob(reg, a.clock, s.db, id, a.token, a.leaseMs).Finished? {
      JobKeepsRows(reg, a.clock, s.db, id, a.token, a.leaseMs);
      JobFrame(reg, a.clock, s.db, id, a.token, a.leaseMs);
      JobKeepsOwners(reg, a.clock, s.db, id, a.token, a.leaseMs);
      NewJobsOk(s, t);
      hide Inv;
      forall other | other in t.db.instances ensures Awaited(reg, t, other) {
        if other == id { RunnerAwaited(reg, s, a); } else { OthersAwaited(reg, s, a, other); }
      }
      FinishedKeepsInv(reg, s, a);
    } else {
      hide Awaited;
      forall other | other in t.db.instances ensures Awaited(reg, t, other) {
        AbandonedAwaited(reg, s, a, other);
      }
    }
  }

  /** Of an unanswered workflow no job is left to run after a run of another, and its own run answers it. */
  lemma RunQuiet(reg: Registry, s: System, a: Action)
    requires Inv(reg, s) && Enabled(reg, s, a) && a.RunClaimed?
    ensures Quiet(Apply(reg, s, a))
  {
    hide RunJob;
    hide RowOk;
    hide Awaited;
    var t := Apply(reg, s, a);
    var runner := s.db.jobs[s.workers[a.worker].job].workflowId;
    if RunJob(reg, a.clock, s.db, runner, a.token, a.leaseMs).Finished? {
      JobFrame(reg, a.clock, s.db, runner, a.token, a.leaseMs);
    }
    forall id | id in t.unanswered ensures !HasAnyLiveJob(t, id) {
      if HasAnyLiveJob(t, id) {
        var j: nat :| WillRun(t, id, j);
        LiveCarriesOver(t, s, id, j);
      }
    }
  }

  lemma FinishedKeepsInv(reg: Registry, s: System, a: Action)
    requires Inv(reg, s) && Enabled(reg, s, a) && a.RunClaimed?
    requires var id := s.db.jobs[s.workers[a.worker].job].workflowId;
      RunJob(reg, a.clock, s.db, id, a.token, a.leaseMs).Finished?
    requires var t := Apply(reg, s, a);
      && RowsOk(reg, t.db) && NoLeases(t.db) && t.db.instances.Keys == s.db.instances.Keys && s.db.jobs <= t.db.jobs
      && (forall j :: 0 <= j < |t.db.signals| ==> t.db.signals[j].workflowId in t.db.instances)
      && (forall j :: |s.db.jobs| <= j < |t.db.jobs| ==>
           t.db.jobs[j].workflowId == s.db.jobs[s.workers[a.worker].job].workflowId)
      && (forall other :: other in t.db.instances ==> Awaited(reg, t, other)) && Quiet(t) && JobsOk(t)
    ensures Inv(reg, Apply(reg, s, a))
  {
    hide RunJob;
    hide RowOk;
    hide Awaited;
    hide WillRun;
  }

  lemma AbandonedAwaited(reg: Registry, s: System, a: Action, other: string)
    requires Inv(reg, s) && Enabled(reg, s, a) && a.RunClaimed? && other in s.db.instances
    requires var id := s.db.jobs[s.workers[a.worker].job].workflowId;
      !RunJob(reg, a.clock, s.db, id, a.token, a.leaseMs).Finished?
    ensures other in Apply(reg, s, a).db.instances && Awaited(reg, Apply(reg, s, a), other)
  {
    hide RunJob;
    hide RowOk;
    AwaitedCarriesOver(reg, s, Apply(reg, s, a), other);
  }

  lemma OthersAwaited(reg: Registry, s: System, a: Action, other: string)
    requires Inv(reg, s) && Enabled(reg, s, a) && a.RunClaimed? && other in s.db.instances
    requires var id := s.db.jobs[s.workers[a.worker].job].workflowId;
      RunJob(reg, a.clock, s.db, id, a.token, a.leaseMs).Finished? && other != id
    ensures other in Apply(reg, s, a).db.instances && Awaited(reg, Apply(reg, s, a), other)
  {
    hide RunJob;
    var t := Apply(reg, s, a);
    var id := s.db.jobs[s.workers[a.worker].job].workflowId;
    JobFrame(reg, a.clock, s.db, id, a.token, a.leaseMs);
    forall name, j: nat
      ensures PendingAt(t.db.signals, other, name, j) <==> PendingAt(s.db.signals, other, name, j)
    {
      JobKeepsPending(reg, a.clock, s.db, id, a.token, a.leaseMs, other, name, j);
    }
    AwaitedCarriesOver(reg, s, t, other);
  }

  lemma NewJobsOk(s: System, t: System)
    requires |s.due| == |s.db.jobs| <= |t.db.jobs| && s.db.jobs <= t.db.jobs && s.clock <= t.clock
    requires t.due == Extend(s.due, t.db.jobs)
    requires forall j :: |s.db.jobs| <= j < |t.db.jobs| ==> t.db.jobs[j].status == Pending
    requires forall j :: 0 <= j < |s.due| ==> JobOk(s.db.jobs[j], s.due[j], s.clock)
    ensures forall j :: 0 <= j < |t.due| ==> JobOk(t.db.jobs[j], t.due[j], t.clock)
  {
  }

  /** A run that brought its workflow to rest enqueued the wake-up itself, and nobody holds a new job yet. */
  lemma SettledAwaited(reg: Registry, s: System, t: System, id: string)
    requires |s.due| == |s.db.jobs| <= |t.db.jobs| && t.due == Extend(s.due, t.db.jobs)
    requires forall w :: w in t.workers ==> t.workers[w].job < |s.due|
    requires forall j :: |s.db.jobs| <= j < |t.db.jobs| ==> t.db.jobs[j].status == Pending
    requires id in t.db.instances && RowOk(reg, t.db, id) && Settled(reg, t.db, id, |s.db.jobs|)
    ensures Awaited(reg, t, id)
  {
    var row := t.db.instances[id];
    if row.wakeAt.Some? {
      var j: nat :| |s.db.jobs| <= j < |t.db.jobs| && t.db.jobs[j].workflowId == id
        && t.db.jobs[j].availableAt >= row.wakeAt.value;
      assert WillRun(t, id, j) && t.due[j] >= row.wakeAt.value;
    }
  }

  /** A run that came too early spent a job due before the wake-up, so the job that is to wake it is another one. */
  lemma EarlyAwaited(reg: Registry, s: System, t: System, id: string, w: nat, now: int)
    requires |s.due| == |s.db.jobs| && t.db == s.db && t.due == s.due
    requires w in s.workers && s.workers[w].job < |s.due| && s.due[s.workers[w].job] <= now
    requires t.workers == s.workers[w := s.workers[w].(phase := Ran)]
    requires id in s.db.instances && Awaited(reg, s, id) && s.db.instances[id].status != Running
    requires TooEarly(reg, s.db, id, now)
    ensures Awaited(reg, t, id)
  {
    var row := s.db.instances[id];
    if row.wakeAt.Some? {
      var j: nat :| WillRun(s, id, j) && s.due[j] >= row.wakeAt.value;
      assert WillRun(t, id, j) && t.due[j] >= row.wakeAt.value;
    }
  }

  /** Where a job that returns leaves its own workflow and the queue. */
  lemma RunnerRests(reg: Registry, s: System, a: Action, id: string)
    requires Inv(reg, s) && Enabled(reg, s, a) && a.RunClaimed? && id in s.db.instances
    requires id == s.db.jobs[s.workers[a.worker].job].workflowId
    requires RunJob(reg, a.clock, s.db, id, a.token, a.leaseMs).Finished?
    ensures var t := Apply(reg, s, a);
      && id in t.db.instances && RowOk(reg, t.db, id)
      && |s.db.jobs| <= |t.db.jobs| && t.due == Extend(s.due, t.db.jobs)
      && (forall j :: |s.db.jobs| <= j < |t.db.jobs| ==> t.db.jobs[j].status == Pending)
      && (Terminal(s.db.instances[id]) ==> t.db.instances[id].status == Completed && t.db.instances[id].wakeAt.None?)
      && (Terminal(s.db.instances[id]) || Settled(reg, t.db, id, |s.db.jobs|)
          || (t.db == s.db && s.db.instances[id].status != Running && TooEarly(reg, s.db, id, a.clock(1))))
  {
    hide RunJob;
    hide Explains;
    hide Awaited;
    JobRests(reg, a.clock, s.db, id, a.token, a.leaseMs);
    JobFrame(reg, a.clock, s.db, id, a.token, a.leaseMs);
    JobKeepsRows(reg, a.clock, s.db, id, a.token, a.leaseMs);
    assert RowOk(reg, s.db, id);
  }

  lemma RunnerAwaited(reg: Registry, s: System, a: Action)
    requires Inv(reg, s) && Enabled(reg, s, a) && a.RunClaimed?
    requires var id := s.db.jobs[s.workers[a.worker].job].workflowId;
      RunJob(reg, a.clock, s.db, id, a.token, a.leaseMs).Finished? && id in s.db.instances
    ensures var id := s.db.jobs[s.workers[a.worker].job].workflowId;
      id in Apply(reg, s, a).db.instances && Awaited(reg, Apply(reg, s, a), id)
  {
    hide RunJob;
    hide RowOk;
    hide Settled;
    hide TooEarly;
    var t := Apply(reg, s, a);
    var id := s.db.jobs[s.workers[a.worker].job].workflowId;
    RunnerRests(reg, s, a, id);
    if Settled(reg, t.db, id, |s.db.jobs|) {
      SettledAwaited(reg, s, t, id);
    } else if !Terminal(s.db.instances[id]) {
      assert a.clock(0) <= a.clock(1);
      EarlyAwaited(reg, s, t, id, a.worker, a.clock(1));
    }
  }

  lemma ActionKeepsInv(reg: Registry, s: System, a: Action)
    requires Inv(reg, s) && Enabled(reg, s, a)
    ensures Inv(reg, Apply(reg, s, a))
  {
    if a.Start? {
      StartKeepsInv(reg, s, a);
    } else if a.Send? {
      SendKeepsInv(reg, s, a);
    } else if a.RunClaimed? {
      RunKeepsInv(reg, s, a);
    } else if a.StartRow? {
      StartRowKeepsInv(reg, s, a);
    } else if a.SendRow? {
      SendRowKeepsInv(reg, s, a);
    } else if a.EnqueueJob? {
      EnqueueKeepsInv(reg, s, a);
    } else if a.Look? || a.Cut? {
      CallKeepsInv(reg, s, a);
    } else {
      BookkeepingKeepsInv(reg, s, a);
    }
  }

  /** No action takes a workflow back, changes its input, or touches it once it is terminal. */
  lemma RowsMoveForward(reg: Registry, s: System, a: Action, id: string)
    requires Inv(reg, s) && Enabled(reg, s, a) && id in s.db.instances
    ensures id in Apply(reg, s, a).db.instances
    ensures MovedForward(s.db.instances[id], Apply(reg, s, a).db.instances[id])
  {
    hide RunJob;
    hide WillRun;
    hide Awaited;
    hide RowOk;
    if a.RunClaimed? {
      var runner := s.db.jobs[s.workers[a.worker].job].workflowId;
      if RunJob(reg, a.clock, s.db, runner, a.token, a.leaseMs).Finished? {
        JobFrame(reg, a.clock, s.db, runner, a.token, a.leaseMs);
        if id == runner { JobMovesForward(reg, a.clock, s.db, id, a.token, a.leaseMs); }
      }
    }
  }

  // ----- over whole runs of the system -----

  ghost predicate CanRun(reg: Registry, s: System, actions: seq<Action>)
    requires Aligned(s)
    decreases |actions|
  {
    actions == [] || (Enabled(reg, s, actions[0]) && CanRun(reg, Apply(reg, s, actions[0]), actions[1..]))
  }

  ghost function RunActions(reg: Registry, s: System, actions: seq<Action>): (t: System)
    requires Aligned(s) && CanRun(reg, s, actions)
    ensures Aligned(t)
    decreases |actions|
  {
    if actions == [] then s else RunActions(reg, Apply(reg, s, actions[0]), actions[1..])
  }

  /** The invariant holds in every state that any interleaving reaches. */
  lemma {:induction false} ReachableInv(reg: Registry, s: System, actions: seq<Action>)
    requires (Initial(s) || Inv(reg, s)) && CanRun(reg, s, actions)
    ensures Inv(reg, RunActions(reg, s, actions))
    decreases |actions|
  {
    InitialInv(reg, s);
    assert Aligned(s);
    hide Inv;
    hide Apply;
    if actions != [] {
      ActionKeepsInv(reg, s, actions[0]);
      ReachableInv(reg, Apply(reg, s, actions[0]), actions[1..]);
    }
  }

  /** From any reachable state on, through any further interleaving, rows only move forward. */
  lemma {:induction false} RowsKeepMovingForward(reg: Registry, s: System, actions: seq<Action>, id: string)
    requires Inv(reg, s) && CanRun(reg, s, actions) && id in s.db.instances
    ensures id in RunActions(reg, s, actions).db.instances
    ensures MovedForward(s.db.instances[id], RunActions(reg, s, actions).db.instances[id])
    decreases |actions|
  {
    assert Aligned(s);
    hide Inv;
    hide Apply;
    if actions != [] {
      ActionKeepsInv(reg, s, actions[0]);
      RowsMoveForward(reg, s, actions[0], id);
      RowsKeepMovingForward(reg, Apply(reg, s, actions[0]), actions[1..], id);
    }
  }

  lemma InitialInv(reg: Registry, s: System)
    ensures Initial(s) ==> Inv(reg, s)
  {
  }

  /** The job is not completed, and neither it nor a timer it stands for is available too early. */
  predicate Outstanding(job: Job, id: string, wakeAt: Option<int>) {
    && job.workflowId == id && job.status != Done && (wakeAt.Some? ==> job.availableAt >= wakeAt.value)
    && (job.status == Processing ==> job.leaseExpiresAt.Some?)
  }

  /** The job was given up on after its last attempt. */
  predicate GivenUp(job: Job, id: string) {
    job.workflowId == id && job.status == Exhausted
  }

  /** The job will be run: it is pending, or in process under a lease that will run out. */
  predicate StillToRun(job: Job, id: string, wakeAt: Option<int>) {
    && job.workflowId == id && (wakeAt.Some? ==> job.availableAt >= wakeAt.value)
    && (job.status == Pending || (job.status == Processing && job.leaseExpiresAt.Some?))
  }

  /** What keeps a workflow from moving on by itself, and so needs a job. */
  predicate NeedsWaking(reg: Registry, db: Db, id: string)
    requires id in db.instances
  {
    var row := db.instances[id];
    row.status == Running || row.wakeAt.Some? || (row.status == WaitingSignal && !NoPending(reg, db, id))
  }

  /** A job that is left to run wakes the workflow, and not before its timer is over. */
  ghost predicate WillWake(s: System, id: string, j: nat)
    requires id in s.db.instances
  {
    WillRun(s, id, j) && StillToRun(s.db.jobs[j], id, s.db.instances[id].wakeAt)
  }

  /**
   In every state any interleaving reaches, a workflow that is running, sleeping, waiting with a deadline,
   or waiting while its signal is there, has a job left to run if and only if it is not unanswered; the job of a
   timer is not available before the wake-up.
   */
  lemma WakeupIsQueued(reg: Registry, s: System, actions: seq<Action>, id: string)
    requires Initial(s) && CanRun(reg, s, actions)
    ensures var t := RunActions(reg, s, actions);
      id in t.db.instances && NeedsWaking(reg, t.db, id) ==>
        ((exists j: nat :: WillRun(t, id, j) && Outstanding(t.db.jobs[j], id, t.db.instances[id].wakeAt))
          <==> id !in t.unanswered)
  {
    ReachableInv(reg, s, actions);
    var t := RunActions(reg, s, actions);
    if id in t.db.instances && NeedsWaking(reg, t.db, id) && id !in t.unanswered {
      var row := t.db.instances[id];
      assert Awaited(reg, t, id);
      if row.wakeAt.Some? {
        var j: nat :| WillRun(t, id, j) && t.due[j] >= row.wakeAt.value;
        assert JobOk(t.db.jobs[j], t.due[j], t.clock);
        assert Outstanding(t.db.jobs[j], id, row.wakeAt);
      } else {
        var j: nat :| WillRun(t, id, j);
        assert JobOk(t.db.jobs[j], t.due[j], t.clock);
        assert Outstanding(t.db.jobs[j], id, row.wakeAt);
      }
    }
  }

  /**
   Exactly when no wake-up is lost. As long as none of its jobs was given up on, such a workflow has a job that
   will be run (pending, or in process under a lease that will run out, and not run already by a worker that is
   about to complete it) if and only if it is not unanswered.
   */
  lemma NoLostWakeup(reg: Registry, s: System, actions: seq<Action>, id: string)
    requires Initial(s) && CanRun(reg, s, actions)
    requires var t := RunActions(reg, s, actions);
      forall j :: 0 <= j < |t.db.jobs| ==> !GivenUp(t.db.jobs[j], id)
    ensures var t := RunActions(reg, s, actions);
      id in t.db.instances && NeedsWaking(reg, t.db, id) ==>
        ((exists j: nat :: WillWake(t, id, j)) <==> id !in t.unanswered)
  {
    WakeupIsQueued(reg, s, actions, id);
    var t := RunActions(reg, s, actions);
    if id in t.db.instances && NeedsWaking(reg, t.db, id) {
      if id !in t.unanswered {
        var j: nat :| WillRun(t, id, j) && Outstanding(t.db.jobs[j], id, t.db.instances[id].wakeAt);
        assert !GivenUp(t.db.jobs[j], id);
        assert WillWake(t, id, j);
      }
      assert forall j: nat :: WillWake(t, id, j) ==> Outstanding(t.db.jobs[j], id, t.db.instances[id].wakeAt);
    }
  }

  // ----- calls that are cut off -----

  /** Some call wrote to the workflow and has still to enqueue its job. */
  ghost predicate Owed(s: System, id: string) {
    exists c :: c in s.calls && s.calls[c] == Owes(id)
  }

  /** The action cuts off a call between its row and its job. */
  predicate CutsOff(s: System, a: Action, id: string) {
    a.Cut? && a.caller in s.calls && s.calls[a.caller] == Owes(id)
  }

  ghost predicate CutOff(reg: Registry, s: System, actions: seq<Action>, id: string)
    requires Aligned(s) && CanRun(reg, s, actions)
    decreases |actions|
  {
    actions != [] && (CutsOff(s, actions[0], id) || CutOff(reg, Apply(reg, s, actions[0]), actions[1..], id))
  }

  lemma OwedStays(reg: Registry, s: System, a: Action, id: string)
    requires Aligned(s) && Enabled(reg, s, a) && !CutsOff(s, a, id)
    requires id in s.unanswered ==> Owed(s, id)
    ensures id in Apply(reg, s, a).unanswered ==> Owed(Apply(reg, s, a), id)
  {
    hide RunJob;
    hide WillRun;
    var t := Apply(reg, s, a);
    if id in t.unanswered {
      if a.StartRow? && a.id == id {
        assert t.calls[a.caller] == Owes(id);
      } else if a.SendRow? && s.calls[a.caller].id == id {
        assert t.calls[a.caller] == Owes(id);
      } else {
        var c :| c in s.calls && s.calls[c] == Owes(id);
        assert c in t.calls && t.calls[c] == Owes(id);
      }
    }
  }

  /** A workflow is unanswered only while a call on it is between its statements, or after one was cut off there. */
  lemma {:induction false} LostOnlyByACut(reg: Registry, s: System, actions: seq<Action>, id: string)
    requires Initial(s) || (Aligned(s) && (id in s.unanswered ==> Owed(s, id)))
    requires CanRun(reg, s, actions) && !CutOff(reg, s, actions, id)
    ensures var t := RunActions(reg, s, actions); id in t.unanswered ==> Owed(t, id)
    decreases |actions|
  {
    hide Apply;
    hide Owed;
    if actions != [] {
      OwedStays(reg, s, actions[0], id);
      LostOnlyByACut(reg, Apply(reg, s, actions[0]), actions[1..], id);
    }
  }

  /** And never when every start and signal is made inside a transaction. */
  lemma {:induction false} TransactionsLoseNothing(reg: Registry, s: System, actions: seq<Action>)
    requires (Initial(s) || (Aligned(s) && s.unanswered == {})) && CanRun(reg, s, actions)
    requires forall a :: a in actions ==> !a.StartRow? && !a.SendRow?
    ensures RunActions(reg, s, actions).unanswered == {}
    decreases |actions|
  {
    hide RunJob;
    hide WillRun;
    if actions != [] {
      var t := Apply(reg, s, actions[0]);
      assert t.unanswered == {};
      hide Apply;
      TransactionsLoseNothing(reg, t, actions[1..]);
    }
  }

  /** The first statement of a call on the workflow outside a transaction. */
  predicate WritesTo(s: System, a: Action, id: string) {
    || (a.StartRow? && a.id == id)
    || (a.SendRow? && a.caller in s.calls && s.calls[a.caller].id == id)
  }

  /** A call that writes its row and is cut off before it enqueues its job. */
  ghost function CutShort(reg: Registry, s: System, a: Action): (t: System)
    requires Aligned(s) && Enabled(reg, s, a) && (a.StartRow? || a.SendRow?)
    ensures Aligned(t)
  {
    Apply(reg, Apply(reg, s, a), Cut(a.caller))
  }

  /**
   What a cut costs: a call cut off between its row and its job leaves the workflow with a job to run if and only
   if it had one before the call; a start never had one.
   */
  lemma CutExactly(reg: Registry, s: System, a: Action, id: string)
    requires Inv(reg, s) && Enabled(reg, s, a) && WritesTo(s, a, id)
    ensures var t := CutShort(reg, s, a);
      && (HasAnyLiveJob(t, id) <==> HasAnyLiveJob(s, id))
      && (id in t.unanswered <==> !HasAnyLiveJob(s, id))
      && (a.StartRow? ==> !HasAnyLiveJob(s, id))
  {
    hide RowOk;
    hide Awaited;
    var t := CutShort(reg, s, a);
    assert forall j: nat :: WillRun(t, id, j) <==> WillRun(s, id, j);
    assert forall j: nat :: WillRun(s, id, j) ==> s.db.jobs[j].workflowId in s.db.instances;
  }

  /** So a signal that is cut off leaves the workflow that waits for it, with no job to run, waiting beside it. */
  lemma CutSignalStrands(reg: Registry, s: System, send: Action, id: string)
    requires Inv(reg, s) && send.SendRow? && Enabled(reg, s, send) && s.calls[send.caller].id == id
    requires id in s.db.instances && s.db.instances[id].status == WaitingSignal && !HasAnyLiveJob(s, id)
    requires var row := s.db.instances[id];
      row.workflow in reg.workflows && row.stepIndex < |reg.workflows[row.workflow].steps|
      && var step := reg.workflows[row.workflow].steps[row.stepIndex];
         step.WaitStep? && step.signal == s.calls[send.caller].name
    ensures var t := CutShort(reg, s, send);
      id in t.db.instances && NeedsWaking(reg, t.db, id) && !HasAnyLiveJob(t, id)
  {
    assert Aligned(s);
    hide Inv;
    hide WillRun;
    hide NeedsWaking;
    hide CutShort;
    CutExactly(reg, s, send, id);
    var call := s.calls[send.caller];
    SignalWakes(reg, s.db, id, call.name, call.payload);
    CutShortWrites(reg, s, send);
  }

  lemma CutShortWrites(reg: Registry, s: System, send: Action)
    requires Aligned(s) && Enabled(reg, s, send) && send.SendRow?
    ensures var call := s.calls[send.caller];
      CutShort(reg, s, send).db == InsertSignal(s.db, call.id, call.name, call.payload)
  {
    hide WillRun;
    hide HasAnyLiveJob;
  }

  lemma SignalWakes(reg: Registry, db: Db, id: string, name: string, payload: Json)
    requires id in db.instances && db.instances[id].status == WaitingSignal
    requires var row := db.instances[id];
      row.workflow in reg.workflows && row.stepIndex < |reg.workflows[row.workflow].steps|
      && var step := reg.workflows[row.workflow].steps[row.stepIndex]; step.WaitStep? && step.signal == name
    ensures NeedsWaking(reg, InsertSignal(db, id, name, payload), id)
  {
    assert PendingAt(InsertSignal(db, id, name, payload).signals, id, name, |db.signals|);
  }

  /** No job was ever enqueued for the workflow, no call on it is under way, and its row is this one. */
  ghost predicate Abandoned(s: System, id: string, row: Row) {
    && id in s.db.instances && s.db.instances[id] == row
    && (forall j :: 0 <= j < |s.db.jobs| ==> s.db.jobs[j].workflowId != id)
    && (forall c :: c in s.calls ==> s.calls[c].id != id)
  }

  /** The action is not a signal to the workflow. */
  predicate LeavesAlone(a: Action, id: string) {
    match a
    case Send(to, _, _) => to != id
    case Look(_, to, _, _) => to != id
    case _ => true
  }

  lemma StaysAbandoned(reg: Registry, s: System, a: Action, id: string, row: Row)
    requires Aligned(s) && Abandoned(s, id, row) && Enabled(reg, s, a) && LeavesAlone(a, id)
    ensures Abandoned(Apply(reg, s, a), id, row)
  {
    hide RunJob;
    hide WillRun;
    if a.RunClaimed? {
      var runner := s.db.jobs[s.workers[a.worker].job].workflowId;
      if RunJob(reg, a.clock, s.db, runner, a.token, a.leaseMs).Finished? {
        JobFrame(reg, a.clock, s.db, runner, a.token, a.leaseMs);
      }
    }
  }

  lemma {:induction false} RunAbandoned(reg: Registry, s: System, actions: seq<Action>, id: string, row: Row)
    requires Aligned(s) && Abandoned(s, id, row) && CanRun(reg, s, actions)
    requires forall a :: a in actions ==> LeavesAlone(a, id)
    ensures Abandoned(RunActions(reg, s, actions), id, row)
    decreases |actions|
  {
    hide Apply;
    hide Abandoned;
    if actions != [] {
      StaysAbandoned(reg, s, actions[0], id, row);
      RunAbandoned(reg, Apply(reg, s, actions[0]), actions[1..], id, row);
    }
  }

  /**
   A start cut off between its two statements strands the workflow: whatever anybody does afterwards, short of
   sending it a signal, it stays running at its first step without a job, and its id cannot be started again.
   */
  lemma CutStartStrands(reg: Registry, s: System, start: Action, actions: seq<Action>)
    requires Inv(reg, s) && start.StartRow? && Enabled(reg, s, start)
    requires var cut := CutShort(reg, s, start);
      CanRun(reg, cut, actions) && forall a :: a in actions ==> LeavesAlone(a, start.id)
    ensures var t := RunActions(reg, CutShort(reg, s, start), actions);
      && start.id in t.db.instances && t.db.instances[start.id].status == Running
      && t.db.instances[start.id].stepIndex == 0 && t.db.instances[start.id].input == start.input
      && (forall j :: 0 <= j < |t.db.jobs| ==> t.db.jobs[j].workflowId != start.id)
      && forall c, workflow, input :: !Enabled(reg, t, StartRow(c, start.id, workflow, input))
  {
    var cut := CutShort(reg, s, start);
    var row := cut.db.instances[start.id];
    assert Abandoned(cut, start.id, row);
    RunAbandoned(reg, cut, actions, start.id, row);
  }

  /** From the empty system on this takes two steps, with any registered workflow whose initial state does not throw. */
  lemma CutStartReachable(reg: Registry, s: System, start: Action)
    requires Initial(s) && start.StartRow? && start.workflow in reg.workflows
    requires reg.workflows[start.workflow].initialState(start.input).Ok?
    ensures CanRun(reg, s, [start, Cut(start.caller)]) && CutOff(reg, s, [start, Cut(start.caller)], start.id)
    ensures var t := RunActions(reg, s, [start, Cut(start.caller)]);
      start.id in t.db.instances && NeedsWaking(reg, t.db, start.id) && t.db.jobs == []
  {
    var actions := [start, Cut(start.caller)];
    assert Aligned(s) && Enabled(reg, s, start);
    var begun := Apply(reg, s, start);
    assert actions[1..] == [Cut(start.caller)] && actions[1..][1..] == [];
    assert CutsOff(begun, Cut(start.caller), start.id);
    hide WillRun;
    var cut := Apply(reg, begun, Cut(start.caller));
    assert CanRun(reg, cut, []) && RunActions(reg, cut, []) == cut;
    assert CanRun(reg, begun, [Cut(start.caller)]) && RunActions(reg, begun, [Cut(start.caller)]) == cut;
  }

  /** Yet a workflow whose start was cut off is answered after all by the next complete signal to it. */
  lemma CutThenSignalled(reg: Registry, s: System, start: Action, name: string, payload: Json)
    requires Inv(reg, s) && start.StartRow? && Enabled(reg, s, start)
    ensures var cut := CutShort(reg, s, start);
      && CutsOff(Apply(reg, s, start), Cut(start.caller), start.id)
      && start.id in cut.unanswered && Enabled(reg, cut, Send(start.id, name, payload))
      && HasAnyLiveJob(Apply(reg, cut, Send(start.id, name, payload)), start.id)
  {
    var begun := Apply(reg, s, start);
    ActionKeepsInv(reg, s, start);
    ActionKeepsInv(reg, begun, Cut(start.caller));
    CutExactly(reg, s, start, start.id);
    hide RowOk;
    hide Awaited;
    var cut := Apply(reg, begun, Cut(start.caller));
    NewJobWakes(cut, Apply(reg, cut, Send(start.id, name, payload)), start.id, cut.clock);
  }

  // ----- workflows that never get through -----

  /** A workflow of steps that neither suspend nor throw, and as many of them as a run has turns, or more. */
  ghost predicate TooLong(reg: Registry, workflow: (string, int)) {
    && workflow in reg.workflows && AllImmediate(reg, reg.workflows[workflow].steps)
    && |reg.workflows[workflow].steps| >= MAX_TURNS
  }

  /** The row is as it was when the workflow was started. */
  predicate AsStarted(reg: Registry, row: Row) {
    && row.workflow in reg.workflows && row.status == Running && row.stepIndex == 0
    && row.wakeAt.None? && row.lease.None? && reg.workflows[row.workflow].initialState(row.input) == Ok(row.state)
  }

  /** A run of a workflow of immediate steps that was just started completes it, or is cut off and leaves nothing. */
  lemma ImmediateRun(reg: Registry, clock: nat -> int, db: Db, id: string, token: nat, leaseMs: int)
    requires id in db.instances && AsStarted(reg, db.instances[id])
    requires AllImmediate(reg, reg.workflows[db.instances[id].workflow].steps)
    ensures RunJob(reg, clock, db, id, token, leaseMs).Finished?
       <==> |reg.workflows[db.instances[id].workflow].steps| < MAX_TURNS
  {
    hide RunUntilSuspended;
    hide RunAction;
    var leased := TakeLease(db, id, Lease(token, clock(0) + leaseMs));
    LimitExact(reg, clock, leased, id, 1, MAX_TURNS);
  }

  ghost predicate LongOnesAsStarted(reg: Registry, db: Db) {
    forall id :: id in db.instances && TooLong(reg, db.instances[id].workflow) ==> AsStarted(reg, db.instances[id])
  }

  lemma LongOnesStay(reg: Registry, s: System, a: Action)
    requires LongOnesAsStarted(reg, s.db) && Inv(reg, s) && Enabled(reg, s, a)
    ensures LongOnesAsStarted(reg, Apply(reg, s, a).db)
  {
    var t := Apply(reg, s, a);
    forall id | id in t.db.instances && TooLong(reg, t.db.instances[id].workflow)
      ensures AsStarted(reg, t.db.instances[id])
    {
      LongOneStays(reg, s, a, id);
    }
  }

  lemma LongOneStays(reg: Registry, s: System, a: Action, id: string)
    requires LongOnesAsStarted(reg, s.db) && Inv(reg, s) && Enabled(reg, s, a)
    requires var t := Apply(reg, s, a); id in t.db.instances && TooLong(reg, t.db.instances[id].workflow)
    ensures AsStarted(reg, Apply(reg, s, a).db.instances[id])
  {
    hide RunJob;
    hide WillRun;
    hide Awaited;
    hide RowOk;
    hide AllImmediate;
    if a.RunClaimed? {
      var runner := s.db.jobs[s.workers[a.worker].job].workflowId;
      if RunJob(reg, a.clock, s.db, runner, a.token, a.leaseMs).Finished? {
        JobFrame(reg, a.clock, s.db, runner, a.token, a.leaseMs);
        JobKeepsRows(reg, a.clock, s.db, runner, a.token, a.leaseMs);
        JobMovesForward(reg, a.clock, s.db, runner, a.token, a.leaseMs);
        if id == runner { ImmediateRun(reg, a.clock, s.db, id, a.token, a.leaseMs); }
      }
    }
  }

  lemma {:induction false} LongOnesNeverMove(reg: Registry, s: System, actions: seq<Action>)
    requires Initial(s) || (Inv(reg, s) && LongOnesAsStarted(reg, s.db))
    requires CanRun(reg, s, actions)
    ensures LongOnesAsStarted(reg, RunActions(reg, s, actions).db)
    decreases |actions|
  {
    InitialInv(reg, s);
    assert Aligned(s);
    hide Inv;
    hide Apply;
    if actions != [] {
      LongOnesStay(reg, s, actions[0]);
      ActionKeepsInv(reg, s, actions[0]);
      LongOnesNeverMove(reg, Apply(reg, s, actions[0]), actions[1..]);
    }
  }

  /**
   What every committed row looks like: no lease is ever visible, the step id is the one at the index,
   wake-ups are only set on resting rows, and no steps-mode workflow is ever `Failed`.
   */
  lemma CommittedRows(reg: Registry, s: System, actions: seq<Action>, id: string)
    requires Initial(s) && CanRun(reg, s, actions)
    requires id in RunActions(reg, s, actions).db.instances
    ensures var row := RunActions(reg, s, actions).db.instances[id];
      && row.lease.None? && row.status != Failed && row.workflow in reg.workflows
      && var steps := reg.workflows[row.workflow].steps;
         && row.stepIndex <= |steps| && row.stepId == StepIdAt(steps, row.stepIndex)
         && (row.wakeAt.Some? ==> row.status == Sleeping || row.status == WaitingSignal)
         && (row.status == Completed ==> row.stepIndex == |steps|)
  {
    ReachableInv(reg, s, actions);
    var t := RunActions(reg, s, actions);
    assert RowOk(reg, t.db, id);
  }

  // ----- segmentation does not matter -----

  /** None of the workflow's waits has a timeout. */
  ghost predicate WithoutTimeouts(def: Definition) {
    forall step :: step in def.steps && step.WaitStep? ==> NeverTimesOut(step)
  }

  function WaitsBefore(steps: seq<Step>, name: string, i: nat): nat
    requires i <= |steps|
  {
    if i == 0 then 0
    else WaitsBefore(steps, name, i - 1) + if steps[i - 1].WaitStep? && steps[i - 1].signal == name then 1 else 0
  }

  /**
   One uninterrupted pass over the first `i` steps: no rows, no clock, no queue. The k-th wait on a
   name takes the k-th payload sent under that name.
   */
  function OnePass(reg: Registry, def: Definition, input: Json, signals: seq<Signal>, id: string, i: nat): Outcome<Json>
    requires i <= |def.steps|
  {
    if i == 0 then def.initialState(input)
    else
      match OnePass(reg, def, input, signals, id, i - 1)
      case Threw => Threw
      case Ok(state) =>
        match def.steps[i - 1]
        case ActionStep(_, _, _, _) => RunAction(reg, def.steps[i - 1], input, state)
        case SleepStep(_, _) => Ok(state)
        case WaitStep(_, signal, _, onSignal, _) =>
          var k := WaitsBefore(def.steps, signal, i - 1);
          var stream := Sent(signals, id, signal);
          if k < |stream| then onSignal(input, stream[k], state) else Threw
  }

  lemma {:induction false} AllTook(
    reg: Registry, def: Definition, input: Json, signals: seq<Signal>, id: string, ch: seq<Choice>, i: nat)
    requires WithoutTimeouts(def) && Allowed(def.steps, ch) && i <= |ch|
    ensures StateAfter(reg, def, input, signals, id, ch, i) == OnePass(reg, def, input, signals, id, i)
    ensures forall name :: TakenBefore(def.steps, ch, name, i) == WaitsBefore(def.steps, name, i)
  {
    if i > 0 {
      AllTook(reg, def, input, signals, id, ch, i - 1);
      assert def.steps[i - 1] in def.steps;
      assert ch[i - 1].Took?;
    }
  }

  /**
   However sleeps, early or late signals, spurious jobs, throwing runs, retries and crashes cut it up,
   a workflow without timeouts rests where one pass over its steps gets, and completes where it ends.
   */
  lemma SegmentationIndependence(reg: Registry, s: System, actions: seq<Action>, id: string)
    requires Initial(s) && CanRun(reg, s, actions)
    requires id in RunActions(reg, s, actions).db.instances
    requires var row := RunActions(reg, s, actions).db.instances[id];
      row.workflow in reg.workflows && WithoutTimeouts(reg.workflows[row.workflow])
    ensures var t := RunActions(reg, s, actions);
      var row := t.db.instances[id];
      var def := reg.workflows[row.workflow];
      && row.stepIndex <= |def.steps|
      && OnePass(reg, def, row.input, t.db.signals, id, row.stepIndex) == Ok(row.state)
      && (row.status == Completed ==> OnePass(reg, def, row.input, t.db.signals, id, |def.steps|) == Ok(row.state))
  {
    ReachableInv(reg, s, actions);
    var t := RunActions(reg, s, actions);
    assert RowOk(reg, t.db, id);
    var row := t.db.instances[id];
    var def := reg.workflows[row.workflow];
    var ch :| Explains(reg, def, row, t.db.signals, id, ch);
    AllTook(reg, def, row.input, t.db.signals, id, ch, |ch|);
  }

  /** Each signal is consumed at most once, oldest first, and as many as the waits already passed. */
  lemma SignalsConsumedInOrder(reg: Registry, s: System, actions: seq<Action>, id: string, name: string)
    requires Initial(s) && CanRun(reg, s, actions)
    requires id in RunActions(reg, s, actions).db.instances
    ensures var t := RunActions(reg, s, actions);
      var row := t.db.instances[id];
      && row.workflow in reg.workflows && row.stepIndex <= |reg.workflows[row.workflow].steps|
      && (exists k: nat :: k <= |Sent(t.db.signals, id, name)| && ConsumedInOrder(t.db.signals, id, name, k))
      && (WithoutTimeouts(reg.workflows[row.workflow]) ==>
           ConsumedInOrder(t.db.signals, id, name,
                           WaitsBefore(reg.workflows[row.workflow].steps, name, row.stepIndex)))
  {
    ReachableInv(reg, s, actions);
    var t := RunActions(reg, s, actions);
    assert RowOk(reg, t.db, id);
    var row := t.db.instances[id];
    var def := reg.workflows[row.workflow];
    var ch :| Explains(reg, def, row, t.db.signals, id, ch);
    assert StreamAt(def.steps, t.db.signals, id, ch, name);
    if WithoutTimeouts(def) { AllTook(reg, def, row.input, t.db.signals, id, ch, |ch|); }
  }

  lemma {:induction false} OnePassSameStreams(
    reg: Registry, def: Definition, input: Json, a: seq<Signal>, idA: string, b: seq<Signal>, idB: string, i: nat)
    requires i <= |def.steps|
    requires forall name :: Sent(a, idA, name) == Sent(b, idB, name)
    ensures OnePass(reg, def, input, a, idA, i) == OnePass(reg, def, input, b, idB, i)
  {
    if i > 0 { OnePassSameStreams(reg, def, input, a, idA, b, idB, i - 1); }
  }

  /** Two histories that complete the same workflow on the same input and the same signals agree on its final state. */
  lemma HistoriesAgree(
    reg: Registry, s1: System, actions1: seq<Action>, id1: string, s2: System, actions2: seq<Action>, id2: string)
    requires Initial(s1) && CanRun(reg, s1, actions1) && id1 in RunActions(reg, s1, actions1).db.instances
    requires Initial(s2) && CanRun(reg, s2, actions2) && id2 in RunActions(reg, s2, actions2).db.instances
    requires var row1 := RunActions(reg, s1, actions1).db.instances[id1];
      var row2 := RunActions(reg, s2, actions2).db.instances[id2];
      && row1.status == Completed == row2.status && row1.workflow == row2.workflow && row1.input == row2.input
      && row1.workflow in reg.workflows && WithoutTimeouts(reg.workflows[row1.workflow])
    requires forall name ::
      Sent(RunActions(reg, s1, actions1).db.signals, id1, name) == Sent(RunActions(reg, s2, actions2).db.signals, id2, name)
    ensures RunActions(reg, s1, actions1).db.instances[id1].state == RunActions(reg, s2, actions2).db.instances[id2].state
  {
    SegmentationIndependence(reg, s1, actions1, id1);
    SegmentationIndependence(reg, s2, actions2, id2);
    var t1, t2 := RunActions(reg, s1, actions1), RunActions(reg, s2, actions2);
    var row := t1.db.instances[id1];
    var def := reg.workflows[row.workflow];
    OnePassSameStreams(reg, def, row.input, t1.db.signals, id1, t2.db.signals, id2, |def.steps|);
  }
}

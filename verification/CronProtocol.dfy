/**
 Several workers running the cron protocol over one database: every statement or transaction of
 `CronStore` is one step, in any interleaving, with leases that expire, workers that die and
 schedules that are re-synced or deleted underneath.
 */
module CronProtocol {
  import opened Wrappers
  import opened CronExpression
  import opened CronSearch
  import opened CronStore

  /** Where a worker stands between its claim and the end of its step; `Dropping` before it deletes an unregistered schedule. */
  datatype Work =
    | Holding(claimed: Claimed)
    | Ready(claimed: Claimed, fireAt: int, nextFireAt: int)
    | Aborted(claimed: Claimed)
    | Dropping(claimed: Claimed)

  datatype System = System(db: Db, clock: int, nextToken: nat, workers: map<nat, Work>)

  datatype Step =
    | Tick(ms: nat)
    | Claim(worker: nat, name: string, leaseMs: int)
    | Resolve(worker: nat, schedule: Schedule, fireAt: int, nextFireAt: int)
    | CommitWindow(worker: nat)
    | Abort(worker: nat)
    | ReleaseLease(worker: nat)
    | Drop(worker: nat)
    | DeleteClaimed(worker: nat)
    | Die(worker: nat)
    | SyncUpsert(name: string, registered: Expression, readAt: int, nextFireAt: int)
    | SyncDelete(name: string)

  predicate Initial(s: System) {
    s.db == Db(map[], {}, []) && s.nextToken == 0 && s.workers == map[]
  }

  ghost predicate Enabled(s: System, step: Step) {
    match step
    case Tick(_) => true
    case Claim(w, name, _) => w !in s.workers && IsCandidate(s.db, s.clock, name)
    case Resolve(w, registered, fireAt, nextFireAt) =>
      && w in s.workers && s.workers[w].Holding?
      && IsWindow(registered, s.workers[w].claimed.nextFireAt, s.clock, fireAt, nextFireAt)
    case CommitWindow(w) => w in s.workers && s.workers[w].Ready?
    case Abort(w) => w in s.workers
    case ReleaseLease(w) => w in s.workers && s.workers[w].Aborted?
    // the schedule is not registered any more
    case Drop(w) => w in s.workers && s.workers[w].Holding?
    case DeleteClaimed(w) => w in s.workers && s.workers[w].Dropping?
    case Die(w) => w in s.workers
    // a sync reads the clock once and may write much later
    case SyncUpsert(_, registered, readAt, nextFireAt) =>
      readAt <= s.clock && IsNextFire(registered.schedule, readAt, nextFireAt)
    case SyncDelete(_) => true
  }

  function Apply(s: System, step: Step): System
    requires Enabled(s, step)
  {
    match step
    case Tick(ms) => s.(clock := s.clock + ms)
    case Claim(w, name, leaseMs) =>
      var claimed := Claimed(name, s.db.schedules[name].nextFireAt, s.nextToken);
      s.(db := SetLease(s.db, name, Some(Lease(s.nextToken, s.clock + leaseMs))),
         nextToken := s.nextToken + 1,
         workers := s.workers[w := Holding(claimed)])
    case Resolve(w, _, fireAt, nextFireAt) =>
      s.(workers := s.workers[w := Ready(s.workers[w].claimed, fireAt, nextFireAt)])
    case CommitWindow(w) =>
      var work := s.workers[w];
      if CanAdvance(s.db, work.claimed) then
        s.(db := Commit(s.db, work.claimed, work.fireAt, work.nextFireAt), workers := s.workers - {w})
      else
        s.(workers := s.workers[w := Aborted(work.claimed)])
    case Abort(w) => s.(workers := s.workers[w := Aborted(s.workers[w].claimed)])
    case ReleaseLease(w) =>
      var c := s.workers[w].claimed;
      s.(db := Release(s.db, c.name, c.token), workers := s.workers - {w})
    case Drop(w) =>
      var c := s.workers[w].claimed;
      s.(db := Release(s.db, c.name, c.token), workers := s.workers[w := Dropping(c)])
    case DeleteClaimed(w) => s.(db := Delete(s.db, s.workers[w].claimed.name), workers := s.workers - {w})
    case Die(w) => s.(workers := s.workers - {w})
    case SyncUpsert(name, registered, _, nextFireAt) => s.(db := Upsert(s.db, name, registered, nextFireAt))
    case SyncDelete(name) => s.(db := Delete(s.db, name))
  }

  ghost predicate CanRun(s: System, steps: seq<Step>)
    decreases |steps|
  {
    steps == [] || (Enabled(s, steps[0]) && CanRun(Apply(s, steps[0]), steps[1..]))
  }

  ghost function RunSteps(s: System, steps: seq<Step>): System
    requires CanRun(s, steps)
    decreases |steps|
  {
    if steps == [] then s else RunSteps(Apply(s, steps[0]), steps[1..])
  }

  // ----- each slot is enqueued at most once -----

  /** Jobs and recorded runs are in one-to-one correspondence: no slot has two jobs. */
  ghost predicate OneJobPerRun(db: Db) {
    && (forall i, j :: 0 <= i < j < |db.jobs| ==> db.jobs[i] != db.jobs[j])
    && (forall run :: run in db.jobs <==> run in db.runs)
  }

  lemma CommitKeepsOneJobPerRun(db: Db, c: Claimed, fireAt: int, nextFireAt: int)
    requires OneJobPerRun(db)
    ensures OneJobPerRun(Commit(db, c, fireAt, nextFireAt))
  {
    var run := Run(c.name, fireAt);
    var after := RecordRun(db, run);
    if run !in db.runs {
      forall i, j | 0 <= i < j < |after.jobs| ensures after.jobs[i] != after.jobs[j] {
        assert after.jobs[i] in db.jobs;
      }
    }
  }

  lemma StepKeepsOneJobPerRun(s: System, step: Step)
    requires OneJobPerRun(s.db) && Enabled(s, step)
    ensures OneJobPerRun(Apply(s, step).db)
  {
    if step.CommitWindow? {
      var work := s.workers[step.worker];
      CommitKeepsOneJobPerRun(s.db, work.claimed, work.fireAt, work.nextFireAt);
    }
  }

  /** Over every interleaving, re-syncs included, committed jobs and recorded runs correspond one to one. */
  lemma {:induction false} EachSlotAtMostOnce(s: System, steps: seq<Step>)
    requires Initial(s) || OneJobPerRun(s.db)
    requires CanRun(s, steps)
    ensures OneJobPerRun(RunSteps(s, steps).db)
    decreases |steps|
  {
    if steps != [] {
      StepKeepsOneJobPerRun(s, steps[0]);
      EachSlotAtMostOnce(Apply(s, steps[0]), steps[1..]);
    }
  }

  // ----- a worker that lost its lease commits nothing -----

  /** Lease tokens identify claims: they are below the next fresh one, and a token names one schedule and slot. */
  ghost predicate TokensInOrder(s: System) {
    && (forall w :: w in s.workers ==> s.workers[w].claimed.token < s.nextToken)
    && (forall v, w :: v in s.workers && w in s.workers && v != w ==>
         s.workers[v].claimed.token != s.workers[w].claimed.token)
    && (forall name :: name in s.db.schedules && s.db.schedules[name].lease.Some? ==>
         s.db.schedules[name].lease.value.token < s.nextToken)
    && (forall w, name :: w in s.workers ==> TokenNamesSlot(s, s.workers[w].claimed, name))
  }

  predicate TokenNamesSlot(s: System, claimed: Claimed, name: string) {
    HoldsLease(s.db, name, claimed.token) ==>
      name == claimed.name && s.db.schedules[name].nextFireAt == claimed.nextFireAt
  }

  /** A lease seen after a step was there before, on the same slot, unless the step is the claim that made it. */
  lemma LeaseOrigin(s: System, step: Step, name: string, token: nat)
    requires Enabled(s, step) && HoldsLease(Apply(s, step).db, name, token)
    ensures name in s.db.schedules
    ensures s.db.schedules[name].nextFireAt == Apply(s, step).db.schedules[name].nextFireAt
    ensures HoldsLease(s.db, name, token) || (step.Claim? && step.name == name && token == s.nextToken)
  {
  }

  /** A claim seen after a step was held before by the same worker, unless the step made it. */
  lemma ClaimOrigin(s: System, step: Step, w: nat)
    requires Enabled(s, step) && w in Apply(s, step).workers
    ensures var claimed := Apply(s, step).workers[w].claimed;
      if step.Claim? && step.worker == w
        then claimed == Claimed(step.name, s.db.schedules[step.name].nextFireAt, s.nextToken)
        else w in s.workers && claimed == s.workers[w].claimed
  {
  }

  lemma TokenKeepsSlot(s: System, step: Step, w: nat, name: string)
    requires TokensInOrder(s) && Enabled(s, step) && w in Apply(s, step).workers
    ensures TokenNamesSlot(Apply(s, step), Apply(s, step).workers[w].claimed, name)
  {
    var claimed := Apply(s, step).workers[w].claimed;
    if HoldsLease(Apply(s, step).db, name, claimed.token) {
      ClaimOrigin(s, step, w);
      LeaseOrigin(s, step, name, claimed.token);
      if w in s.workers && claimed == s.workers[w].claimed {
        assert TokenNamesSlot(s, claimed, name);
      } else {
        assert name == step.name;
      }
    }
  }

  lemma StepKeepsTokens(s: System, step: Step)
    requires TokensInOrder(s) && Enabled(s, step)
    ensures TokensInOrder(Apply(s, step))
  {
    var t := Apply(s, step);
    forall name | name in t.db.schedules && t.db.schedules[name].lease.Some?
      ensures t.db.schedules[name].lease.value.token < t.nextToken
    {
      LeaseOrigin(s, step, name, t.db.schedules[name].lease.value.token);
    }
    forall w, name | w in t.workers
      ensures TokenNamesSlot(t, t.workers[w].claimed, name)
    {
      TokenKeepsSlot(s, step, w, name);
    }
  }

  /** No schedule is leased under this token any more. */
  ghost predicate Lost(s: System, token: nat) {
    token < s.nextToken && forall name :: !HoldsLease(s.db, name, token)
  }

  /** Losing a lease is for ever: no later step leases anything under the old token again. */
  lemma LostStaysLost(s: System, step: Step, token: nat)
    requires Lost(s, token) && Enabled(s, step)
    ensures Lost(Apply(s, step), token)
  {
    forall name ensures !HoldsLease(Apply(s, step).db, name, token) {
      if HoldsLease(Apply(s, step).db, name, token) { LeaseOrigin(s, step, name, token); }
    }
  }

  /** Tokens are in order in every state that any interleaving reaches, stale re-syncs included. */
  lemma {:induction false} TokensReachable(s: System, steps: seq<Step>)
    requires (Initial(s) || TokensInOrder(s)) && CanRun(s, steps)
    ensures TokensInOrder(RunSteps(s, steps))
    decreases |steps|
  {
    if steps != [] {
      StepKeepsTokens(s, steps[0]);
      TokensReachable(Apply(s, steps[0]), steps[1..]);
    }
  }

  /** A claim whose own schedule is not leased under its token has lost it for good: nothing else is either. */
  lemma NotHeldIsLost(s: System, w: nat)
    requires TokensInOrder(s) && w in s.workers
    requires !HoldsLease(s.db, s.workers[w].claimed.name, s.workers[w].claimed.token)
    ensures Lost(s, s.workers[w].claimed.token)
  {
    forall name ensures !HoldsLease(s.db, name, s.workers[w].claimed.token) {
      assert TokenNamesSlot(s, s.workers[w].claimed, name);
    }
  }

  /** A claim of the same schedule by another worker takes it over: the old token is lost. */
  lemma TakenOver(s: System, v: nat, w: nat, leaseMs: int)
    requires TokensInOrder(s) && w in s.workers
    requires Enabled(s, Claim(v, s.workers[w].claimed.name, leaseMs))
    ensures Lost(Apply(s, Claim(v, s.workers[w].claimed.name, leaseMs)), s.workers[w].claimed.token)
  {
    var step := Claim(v, s.workers[w].claimed.name, leaseMs);
    StepKeepsTokens(s, step);
    NotHeldIsLost(Apply(s, step), w);
  }

  /**
   Once a token is lost, then for the rest of any run a worker that still holds its claim changes no table when it
   commits or releases; when it deletes a schedule it found unregistered, which goes by name alone, it changes
   one exactly if the schedule is still there.
   */
  lemma {:induction false} LostTokenChangesNothing(s: System, steps: seq<Step>, token: nat, w: nat)
    requires Lost(s, token) && CanRun(s, steps)
    ensures var t := RunSteps(s, steps);
      && Lost(t, token)
      && (w in t.workers && t.workers[w].claimed.token == token && t.workers[w].Ready?
          ==> Apply(t, CommitWindow(w)).db == t.db)
      && (w in t.workers && t.workers[w].claimed.token == token && t.workers[w].Aborted?
          ==> Apply(t, ReleaseLease(w)).db == t.db)
      && (w in t.workers && t.workers[w].claimed.token == token && t.workers[w].Holding?
          ==> Apply(t, Drop(w)).db == t.db)
      && (w in t.workers && t.workers[w].claimed.token == token && t.workers[w].Dropping?
          ==> (Apply(t, DeleteClaimed(w)).db != t.db <==> t.workers[w].claimed.name in t.db.schedules))
    decreases |steps|
  {
    if steps != [] {
      LostStaysLost(s, steps[0], token);
      LostTokenChangesNothing(Apply(s, steps[0]), steps[1..], token, w);
    } else if w in s.workers && s.workers[w].claimed.token == token {
      assert !HoldsLease(s.db, s.workers[w].claimed.name, token);
    }
  }

  /**
   From the empty system on: when, at any point of any run, a step of somebody else (a claim of the same
   schedule, a re-sync, a deletion) leaves a worker's schedule without that worker's lease, then whatever
   happens afterwards the worker changes no table when it commits or releases. It changes one exactly when it
   deletes the schedule as unregistered while it is there.
   */
  lemma LostLeaseCommitsNothing(s: System, before: seq<Step>, step: Step, later: seq<Step>, w: nat)
    requires Initial(s) && CanRun(s, before)
    requires var held := RunSteps(s, before);
      && w in held.workers && Enabled(held, step)
      && var claimed := held.workers[w].claimed;
         || (step.Claim? && step.name == claimed.name)
         || (step.SyncUpsert? && step.name == claimed.name)
         || (step.SyncDelete? && step.name == claimed.name)
         || (step.DeleteClaimed? && step.worker != w && step.worker in held.workers
             && held.workers[step.worker].claimed.name == claimed.name)
    requires CanRun(Apply(RunSteps(s, before), step), later)
    ensures var token := RunSteps(s, before).workers[w].claimed.token;
      var t := RunSteps(Apply(RunSteps(s, before), step), later);
      w in t.workers && t.workers[w].claimed.token == token ==>
        && (t.workers[w].Ready? ==> Apply(t, CommitWindow(w)).db == t.db)
        && (t.workers[w].Aborted? ==> Apply(t, ReleaseLease(w)).db == t.db)
        && (t.workers[w].Holding? ==> Apply(t, Drop(w)).db == t.db)
        && (t.workers[w].Dropping? ==>
              (Apply(t, DeleteClaimed(w)).db != t.db <==> t.workers[w].claimed.name in t.db.schedules))
  {
    TokensReachable(s, before);
    var held := RunSteps(s, before);
    var after := Apply(held, step);
    StepKeepsTokens(held, step);
    NotHeldIsLost(after, w);
    LostTokenChangesNothing(after, later, held.workers[w].claimed.token, w);
  }

  /** Such a deletion takes the schedule from whoever has claimed it by then: that worker has lost it. */
  lemma DeletionTakesLease(s: System, v: nat, w: nat)
    requires TokensInOrder(s) && v in s.workers && w in s.workers && v != w && s.workers[w].Dropping?
    requires s.workers[v].claimed.name == s.workers[w].claimed.name
    ensures Lost(Apply(s, DeleteClaimed(w)), s.workers[v].claimed.token)
  {
    StepKeepsTokens(s, DeleteClaimed(w));
    NotHeldIsLost(Apply(s, DeleteClaimed(w)), v);
  }

  // ----- nobody else claims a schedule while its lease runs -----

  /** A step that takes the schedule out of the lease: its holder commits or lets go, or it is written or deleted. */
  ghost predicate GivesUp(s: System, step: Step, name: string, token: nat) {
    match step
    case CommitWindow(w) => w in s.workers && s.workers[w].claimed.name == name && s.workers[w].claimed.token == token
    case ReleaseLease(w) => w in s.workers && s.workers[w].claimed.name == name && s.workers[w].claimed.token == token
    case Drop(w) => w in s.workers && s.workers[w].claimed.name == name && s.workers[w].claimed.token == token
    case DeleteClaimed(w) => w in s.workers && s.workers[w].claimed.name == name
    case SyncUpsert(synced, _, _, _) => synced == name
    case SyncDelete(synced) => synced == name
    case _ => false
  }

  ghost predicate NobodyGivesUp(s: System, steps: seq<Step>, name: string, token: nat)
    requires CanRun(s, steps)
    decreases |steps|
  {
    steps == [] || (!GivesUp(s, steps[0], name, token) && NobodyGivesUp(Apply(s, steps[0]), steps[1..], name, token))
  }

  lemma LeaseStays(s: System, step: Step, name: string, token: nat)
    requires HoldsLease(s.db, name, token) && Enabled(s, step) && !GivesUp(s, step, name, token)
    requires s.clock < s.db.schedules[name].lease.value.expiresAt
    ensures name in Apply(s, step).db.schedules && Apply(s, step).db.schedules[name] == s.db.schedules[name]
    ensures s.clock <= Apply(s, step).clock
  {
  }

  lemma {:induction false} ClockRuns(s: System, steps: seq<Step>)
    requires CanRun(s, steps)
    ensures s.clock <= RunSteps(s, steps).clock
    decreases |steps|
  {
    if steps != [] { ClockRuns(Apply(s, steps[0]), steps[1..]); }
  }

  /**
   Through any interleaving, as long as the holder neither commits nor lets go and the schedule is not synced or
   deleted, the row stays as it is until the lease runs out, and no worker can claim the schedule.
   */
  lemma {:induction false} LeaseExcludes(s: System, steps: seq<Step>, name: string, token: nat)
    requires CanRun(s, steps) && HoldsLease(s.db, name, token) && NobodyGivesUp(s, steps, name, token)
    requires RunSteps(s, steps).clock < s.db.schedules[name].lease.value.expiresAt
    ensures var t := RunSteps(s, steps);
      && name in t.db.schedules && t.db.schedules[name] == s.db.schedules[name]
      && forall w, leaseMs :: !Enabled(t, Claim(w, name, leaseMs))
    decreases |steps|
  {
    if steps != [] {
      hide Apply;
      hide Enabled;
      ClockRuns(Apply(s, steps[0]), steps[1..]);
      ClockRuns(s, [steps[0]]);
      LeaseStays(s, steps[0], name, token);
      LeaseExcludes(Apply(s, steps[0]), steps[1..], name, token);
    } else {
      CandidateExactly(s.db, s.clock, name);
    }
  }

  /** A claim leases the schedule from the moment it is made, for as long as it asks; it only takes one that is due and free. */
  lemma ClaimLeases(s: System, w: nat, name: string, leaseMs: int)
    requires Enabled(s, Claim(w, name, leaseMs))
    ensures name in s.db.schedules && s.db.schedules[name].nextFireAt <= s.clock
    ensures s.db.schedules[name].lease.Some? ==> s.db.schedules[name].lease.value.expiresAt <= s.clock
    ensures var t := Apply(s, Claim(w, name, leaseMs));
      && t.workers[w] == Holding(Claimed(name, s.db.schedules[name].nextFireAt, s.nextToken))
      && t.db == s.db.(schedules := s.db.schedules[
           name := s.db.schedules[name].(lease := Some(Lease(s.nextToken, s.clock + leaseMs)))])
  {
    CandidateExactly(s.db, s.clock, name);
  }

  /** A schedule that is due, and not under a lease that still runs, holds up no worker: it can be claimed, or another one first. */
  lemma DueIsClaimable(s: System, w: nat, name: string, leaseMs: int)
    requires w !in s.workers && name in s.db.schedules && s.db.schedules[name].nextFireAt <= s.clock
    requires s.db.schedules[name].lease.Some? ==> s.db.schedules[name].lease.value.expiresAt <= s.clock
    ensures exists first :: Enabled(s, Claim(w, first, leaseMs))
  {
    CandidateExists(s.db, s.clock, name);
    var first :| IsCandidate(s.db, s.clock, first);
    assert Enabled(s, Claim(w, first, leaseMs));
  }

  // ----- the fire times of a schedule only go up -----

  /** Committed slots are past, their schedules beyond them, and a worker's slot is due and not before its claim. */
  ghost predicate SlotsMoveOn(s: System) {
    && (forall run :: run in s.db.runs ==> run.fireAt <= s.clock)
    && (forall run :: run in s.db.runs && run.name in s.db.schedules ==>
         run.fireAt < s.db.schedules[run.name].nextFireAt)
    && (forall w :: w in s.workers ==> s.workers[w].claimed.nextFireAt <= s.clock)
    && (forall w :: w in s.workers && s.workers[w].Ready? ==>
         && s.workers[w].claimed.nextFireAt <= s.workers[w].fireAt <= s.clock
         && s.workers[w].fireAt < s.workers[w].nextFireAt)
  }

  /**
   What a run keeps whose re-syncs are late enough. A committed slot is in the past, and the schedule that
   committed it has moved beyond it, so the run a worker is about to record is newer than all before.
   */
  ghost predicate MovesOn(s: System) {
    TokensInOrder(s) && SlotsMoveOn(s) && OneJobPerRun(s.db) && Ascends(s.db.jobs)
  }

  ghost predicate Ascends(jobs: seq<Run>) {
    forall i, j :: 0 <= i < j < |jobs| && jobs[i].name == jobs[j].name ==> jobs[i].fireAt < jobs[j].fireAt
  }

  /** What a re-sync writes is later than every recorded run of its schedule. */
  ghost predicate LateEnough(s: System, step: Step) {
    step.SyncUpsert? ==> forall run :: run in s.db.runs && run.name == step.name ==> run.fireAt < step.nextFireAt
  }

  /** It is, if the sync read the clock no earlier than the schedule's last recorded fire time. */
  lemma ReadLateEnough(s: System, step: Step)
    requires Enabled(s, step)
    requires step.SyncUpsert? ==> forall run :: run in s.db.runs && run.name == step.name ==> run.fireAt <= step.readAt
    ensures LateEnough(s, step)
  {
  }

  /** The slot about to be committed is newer than every recorded run of its schedule. */
  lemma CommitIsNewer(s: System, w: nat, run: Run)
    requires MovesOn(s) && w in s.workers && s.workers[w].Ready?
    requires CanAdvance(s.db, s.workers[w].claimed)
    requires run in s.db.runs && run.name == s.workers[w].claimed.name
    ensures run.fireAt < s.workers[w].fireAt
  {
    assert TokenNamesSlot(s, s.workers[w].claimed, run.name);
  }

  /** Recording a run keeps the order exactly if it was recorded before or is newer than all of its schedule's. */
  lemma CommitAscends(db: Db, run: Run)
    requires OneJobPerRun(db) && Ascends(db.jobs)
    ensures Ascends(RecordRun(db, run).jobs)
       <==> run in db.runs || forall r :: r in db.runs && r.name == run.name ==> r.fireAt < run.fireAt
  {
    var after := RecordRun(db, run).jobs;
    if run !in db.runs {
      if forall r :: r in db.runs && r.name == run.name ==> r.fireAt < run.fireAt {
        forall i, j | 0 <= i < j < |after| && after[i].name == after[j].name
          ensures after[i].fireAt < after[j].fireAt
        {
          assert after[i] in db.jobs;
        }
      } else {
        var r :| r in db.runs && r.name == run.name && r.fireAt >= run.fireAt;
        assert r in db.jobs;
        var i :| 0 <= i < |db.jobs| && db.jobs[i] == r;
        assert after[i] == r && after[|db.jobs|] == run;
      }
    }
  }

  lemma StepKeepsAscends(s: System, step: Step)
    requires MovesOn(s) && Enabled(s, step)
    ensures Ascends(Apply(s, step).db.jobs)
  {
    if step.CommitWindow? && CanAdvance(s.db, s.workers[step.worker].claimed) {
      var work := s.workers[step.worker];
      forall r | r in s.db.runs && r.name == work.claimed.name ensures r.fireAt < work.fireAt {
        CommitIsNewer(s, step.worker, r);
      }
      CommitAscends(s.db, Run(work.claimed.name, work.fireAt));
    }
  }

  lemma StepMovesOn(s: System, step: Step)
    requires MovesOn(s) && Enabled(s, step) && LateEnough(s, step)
    ensures MovesOn(Apply(s, step))
  {
    StepKeepsTokens(s, step);
    StepKeepsOneJobPerRun(s, step);
    StepKeepsAscends(s, step);
    StepKeepsSlots(s, step);
  }

  lemma StepKeepsSlots(s: System, step: Step)
    requires MovesOn(s) && Enabled(s, step) && LateEnough(s, step)
    ensures SlotsMoveOn(Apply(s, step))
  {
    if step.CommitWindow? && CanAdvance(s.db, s.workers[step.worker].claimed) {
      var work := s.workers[step.worker];
      forall r | r in s.db.runs && r.name == work.claimed.name ensures r.fireAt < work.fireAt {
        CommitIsNewer(s, step.worker, r);
      }
    }
  }

  ghost predicate AlwaysLateEnough(s: System, steps: seq<Step>)
    requires CanRun(s, steps)
    decreases |steps|
  {
    steps == [] || (LateEnough(s, steps[0]) && AlwaysLateEnough(Apply(s, steps[0]), steps[1..]))
  }

  /** If its re-syncs are late enough, a run enqueues each schedule's jobs in strictly increasing fire time. */
  lemma {:induction false} FireTimesIncrease(s: System, steps: seq<Step>)
    requires Initial(s) || MovesOn(s)
    requires CanRun(s, steps) && AlwaysLateEnough(s, steps)
    ensures MovesOn(RunSteps(s, steps)) && Ascends(RunSteps(s, steps).db.jobs)
    decreases |steps|
  {
    if steps != [] {
      StepMovesOn(s, steps[0]);
      FireTimesIncrease(Apply(s, steps[0]), steps[1..]);
    }
  }

  /**
   How sharp the condition is. A re-sync followed by the schedule's next fire keeps the order if and only
   if the slot that is due then was recorded before or is newer than every recorded one. The slot due is
   never before the one written, so a re-sync that is late enough is always on the right side.
   */
  lemma ResyncThenFire(
    s: System, w: nat, name: string, registered: Expression, readAt: int, written: int, leaseMs: int, fireAt: int, next: int)
    requires OneJobPerRun(s.db) && Ascends(s.db.jobs)
    requires CanRun(s, SyncAndFire(w, name, registered, readAt, written, leaseMs, fireAt, next))
    ensures written <= fireAt
    ensures Ascends(RunSteps(s, SyncAndFire(w, name, registered, readAt, written, leaseMs, fireAt, next)).db.jobs)
      <==> Run(name, fireAt) in s.db.runs || forall r :: r in s.db.runs && r.name == name ==> r.fireAt < fireAt
  {
    SyncAndFireRecords(s, w, name, registered, readAt, written, leaseMs, fireAt, next);
    CommitAscends(s.db, Run(name, fireAt));
  }

  lemma SyncAndFireRecords(
    s: System, w: nat, name: string, registered: Expression, readAt: int, written: int, leaseMs: int, fireAt: int, next: int)
    requires CanRun(s, SyncAndFire(w, name, registered, readAt, written, leaseMs, fireAt, next))
    ensures written <= fireAt
    ensures var t := RunSteps(s, SyncAndFire(w, name, registered, readAt, written, leaseMs, fireAt, next));
      t.db.jobs == RecordRun(s.db, Run(name, fireAt)).jobs
  {
    var sync, claim := SyncUpsert(name, registered, readAt, written), Claim(w, name, leaseMs);
    RunFour(s, sync, claim, Resolve(w, registered.schedule, fireAt, next), CommitWindow(w));
    hide CanRun;
    hide RunSteps;
    hide IsNextFire;
    hide IsCandidate;
    var held := Apply(Apply(s, sync), claim);
    assert held.workers[w] == Holding(Claimed(name, written, s.nextToken));
    assert CanAdvance(held.db, held.workers[w].claimed);
  }

  function SyncAndFire(
    w: nat, name: string, registered: Expression, readAt: int, written: int, leaseMs: int, fireAt: int, next: int): seq<Step>
  {
    [SyncUpsert(name, registered, readAt, written), Claim(w, name, leaseMs),
     Resolve(w, registered.schedule, fireAt, next), CommitWindow(w)]
  }

  lemma RunFour(s: System, a: Step, b: Step, c: Step, d: Step)
    requires CanRun(s, [a, b, c, d])
    ensures Enabled(s, a) && Enabled(Apply(s, a), b) && Enabled(Apply(Apply(s, a), b), c)
    ensures Enabled(Apply(Apply(Apply(s, a), b), c), d)
    ensures RunSteps(s, [a, b, c, d]) == Apply(Apply(Apply(Apply(s, a), b), c), d)
  {
    hide Apply;
    hide Enabled;
    RunOne(s, a, [b, c, d]);
    RunOne(Apply(s, a), b, [c, d]);
    RunOne(Apply(Apply(s, a), b), c, [d]);
    RunOne(Apply(Apply(Apply(s, a), b), c), d, []);
  }

  lemma RunOne(s: System, step: Step, more: seq<Step>)
    requires CanRun(s, [step] + more)
    ensures Enabled(s, step) && CanRun(Apply(s, step), more)
    ensures RunSteps(s, [step] + more) == RunSteps(Apply(s, step), more)
  {
    assert ([step] + more)[1..] == more;
  }

  // ----- no slot is lost -----

  /** A step that leaves a schedule alone but for running it by its stored expression. */
  ghost predicate Regular(s: System, step: Step, name: string) {
    match step
    case Resolve(w, registered, _, _) =>
      w in s.workers && s.workers[w].claimed.name == name && name in s.db.schedules ==>
        registered == s.db.schedules[name].expression.schedule
    case SyncUpsert(synced, _, _, _) => synced != name
    case SyncDelete(synced) => synced != name
    case DeleteClaimed(w) => w in s.workers ==> s.workers[w].claimed.name != name
    case _ => true
  }

  ghost predicate RegularRun(s: System, steps: seq<Step>, name: string)
    requires CanRun(s, steps)
    decreases |steps|
  {
    steps == [] || (Regular(s, steps[0], name) && RegularRun(Apply(s, steps[0]), steps[1..], name))
  }

  /** Slot `slot` has been run, or a later one that was due has been run instead. */
  ghost predicate Superseded(s: System, name: string, slot: int) {
    exists run :: run in s.db.runs && run.name == name && slot <= run.fireAt <= s.clock
  }

  /** Every slot of the schedule from `first` up to its stored position has been run or superseded. */
  ghost predicate SlotsCovered(s: System, name: string, schedule: Schedule, first: int) {
    && name in s.db.schedules && s.db.schedules[name].expression.schedule == schedule
    && (forall slot :: first <= slot < s.db.schedules[name].nextFireAt && Fires(schedule, slot) ==> Superseded(s, name, slot))
    && (forall w :: w in s.workers && s.workers[w].Ready? && HoldsLease(s.db, name, s.workers[w].claimed.token) ==>
         s.workers[w].fireAt <= s.clock && IsNextFire(schedule, s.workers[w].fireAt, s.workers[w].nextFireAt))
  }

  lemma SupersededStays(s: System, step: Step, name: string, slot: int)
    requires Enabled(s, step) && Superseded(s, name, slot)
    ensures Superseded(Apply(s, step), name, slot)
  {
    var run :| run in s.db.runs && run.name == name && slot <= run.fireAt <= s.clock;
    assert run in Apply(s, step).db.runs;
  }

  /** Claims are made when their slot is due, and the clock does not go back. */
  ghost predicate ClaimsDue(s: System) {
    forall w :: w in s.workers ==> s.workers[w].claimed.nextFireAt <= s.clock
  }

  lemma {:induction false} ClaimsReachable(s: System, steps: seq<Step>)
    requires (Initial(s) || ClaimsDue(s)) && CanRun(s, steps)
    ensures ClaimsDue(RunSteps(s, steps))
    decreases |steps|
  {
    if steps != [] { ClaimsReachable(Apply(s, steps[0]), steps[1..]); }
  }

  /** A worker that is about to commit to the schedule after a step has its window from the stored expression. */
  lemma WindowsStay(s: System, step: Step, name: string, schedule: Schedule, first: int, w: nat)
    requires TokensInOrder(s) && ClaimsDue(s) && Enabled(s, step) && Regular(s, step, name)
    requires SlotsCovered(s, name, schedule, first)
    requires var t := Apply(s, step);
      w in t.workers && t.workers[w].Ready? && HoldsLease(t.db, name, t.workers[w].claimed.token)
    ensures var t := Apply(s, step);
      t.workers[w].fireAt <= t.clock && IsNextFire(schedule, t.workers[w].fireAt, t.workers[w].nextFireAt)
  {
    var t := Apply(s, step);
    ClaimOrigin(s, step, w);
    LeaseOrigin(s, step, name, t.workers[w].claimed.token);
    assert TokenNamesSlot(s, s.workers[w].claimed, name);
  }

  lemma StepCovers(s: System, step: Step, name: string, schedule: Schedule, first: int)
    requires TokensInOrder(s) && ClaimsDue(s) && Enabled(s, step) && Regular(s, step, name)
    requires SlotsCovered(s, name, schedule, first)
    ensures SlotsCovered(Apply(s, step), name, schedule, first)
  {
    var t := Apply(s, step);
    forall w | w in t.workers && t.workers[w].Ready? && HoldsLease(t.db, name, t.workers[w].claimed.token)
      ensures t.workers[w].fireAt <= t.clock && IsNextFire(schedule, t.workers[w].fireAt, t.workers[w].nextFireAt)
    {
      WindowsStay(s, step, name, schedule, first, w);
    }
    forall slot | first <= slot < t.db.schedules[name].nextFireAt && Fires(schedule, slot)
      ensures Superseded(t, name, slot)
    {
      SlotStaysCovered(s, step, name, schedule, first, slot);
    }
  }

  lemma SlotStaysCovered(s: System, step: Step, name: string, schedule: Schedule, first: int, slot: int)
    requires TokensInOrder(s) && Enabled(s, step) && Regular(s, step, name) && SlotsCovered(s, name, schedule, first)
    requires name in Apply(s, step).db.schedules
    requires first <= slot < Apply(s, step).db.schedules[name].nextFireAt && Fires(schedule, slot)
    ensures Superseded(Apply(s, step), name, slot)
  {
    if slot < s.db.schedules[name].nextFireAt {
      SupersededStays(s, step, name, slot);
    } else {
      var work := s.workers[step.worker];
      assert slot <= work.fireAt;
      assert Run(name, work.fireAt) in Apply(s, step).db.runs;
    }
  }

  lemma {:induction false} NoSlotLost(s: System, steps: seq<Step>, name: string, schedule: Schedule, first: int)
    requires CanRun(s, steps) && RegularRun(s, steps, name)
    requires TokensInOrder(s) && ClaimsDue(s) && SlotsCovered(s, name, schedule, first)
    ensures SlotsCovered(RunSteps(s, steps), name, schedule, first)
    decreases |steps|
  {
    if steps != [] {
      StepCovers(s, steps[0], name, schedule, first);
      StepKeepsTokens(s, steps[0]);
      NoSlotLost(Apply(s, steps[0]), steps[1..], name, schedule, first);
    }
  }

  /**
   No slot is lost. Whenever, in any run, a schedule is written, then through any interleaving until it is
   synced again, every slot between the position written and its position now has been run, or superseded
   by a later slot that was run when it was already due.
   */
  lemma SkippedSlotsSuperseded(s: System, before: seq<Step>, sync: Step, steps: seq<Step>, slot: int)
    requires Initial(s) && CanRun(s, before) && sync.SyncUpsert? && Enabled(RunSteps(s, before), sync)
    requires var written := Apply(RunSteps(s, before), sync);
      CanRun(written, steps) && RegularRun(written, steps, sync.name)
    ensures var t := RunSteps(Apply(RunSteps(s, before), sync), steps);
      && sync.name in t.db.schedules && t.db.schedules[sync.name].expression.schedule == sync.registered.schedule
      && (Fires(sync.registered.schedule, slot) && sync.nextFireAt <= slot < t.db.schedules[sync.name].nextFireAt ==>
           Superseded(t, sync.name, slot))
  {
    TokensReachable(s, before);
    ClaimsReachable(s, before);
    var held := RunSteps(s, before);
    StepKeepsTokens(held, sync);
    NoSlotLost(Apply(held, sync), steps, sync.name, sync.registered.schedule, sync.nextFireAt);
  }
}

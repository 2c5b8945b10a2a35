/**
 The cron tables and the claim / run / advance protocol over them: the table operations of the
 storage adapter, and the engine's step that claims a due schedule, records the run, enqueues the
 job and moves the schedule on.
 */
module CronStore {
  import opened Wrappers
  import opened Calendar
  import opened CronExpression
  import opened CronSearch
  import opened Names

  datatype Lease = Lease(token: nat, expiresAt: int)

  /** A cron expression as it was written, and the schedule it parses to. The table stores the text. */
  datatype Expression = Expression(text: string, schedule: Schedule)

  /** A row of the schedules table. */
  datatype Row = Row(expression: Expression, nextFireAt: int, lease: Option<Lease>)

  datatype Run = Run(name: string, fireAt: int)

  /** The schedules table, the table of recorded runs (a primary key), and the enqueued cron jobs. */
  datatype Db = Db(schedules: map<string, Row>, runs: set<Run>, jobs: seq<Run>)

  /** What a claim hands to the engine. */
  datatype Claimed = Claimed(name: string, nextFireAt: int, token: nat)

  // ----- table operations, as functions of the tables -----

  predicate Claimable(row: Row, now: int) {
    row.nextFireAt <= now && (row.lease.None? || row.lease.value.expiresAt <= now)
  }

  predicate Before(db: Db, a: string, b: string)
    requires a in db.schedules && b in db.schedules
  {
    || db.schedules[a].nextFireAt < db.schedules[b].nextFireAt
    || (db.schedules[a].nextFireAt == db.schedules[b].nextFireAt && Less(a, b))
  }

  /** The row the claim query selects: due, not leased, first by fire time and then by name. */
  predicate IsCandidate(db: Db, now: int, name: string) {
    && name in db.schedules && Claimable(db.schedules[name], now)
    && forall other :: other in db.schedules && Claimable(db.schedules[other], now) && other != name
         ==> Before(db, name, other)
  }

  function SetLease(db: Db, name: string, lease: Option<Lease>): Db
    requires name in db.schedules
  {
    db.(schedules := db.schedules[name := db.schedules[name].(lease := lease)])
  }

  predicate HoldsLease(db: Db, name: string, token: nat) {
    name in db.schedules && db.schedules[name].lease.Some? && db.schedules[name].lease.value.token == token
  }

  function Release(db: Db, name: string, token: nat): Db {
    if HoldsLease(db, name, token) then SetLease(db, name, None) else db
  }

  function Upsert(db: Db, name: string, expression: Expression, nextFireAt: int): Db {
    db.(schedules := db.schedules[name := Row(expression, nextFireAt, None)])
  }

  function Delete(db: Db, name: string): Db {
    db.(schedules := db.schedules - {name})
  }

  /** The run is recorded, and its job enqueued, unless the slot was recorded before. */
  function RecordRun(db: Db, run: Run): Db {
    if run in db.runs then db else db.(runs := db.runs + {run}, jobs := db.jobs + [run])
  }

  /** The compare-and-swap the advance makes on fire time and lease token. */
  predicate CanAdvance(db: Db, c: Claimed) {
    HoldsLease(db, c.name, c.token) && db.schedules[c.name].nextFireAt == c.nextFireAt
  }

  function Advance(db: Db, name: string, nextFireAt: int): Db
    requires name in db.schedules
  {
    db.(schedules := db.schedules[name := db.schedules[name].(nextFireAt := nextFireAt, lease := None)])
  }

  /** The whole transaction: all of it when the advance succeeds, nothing when it throws. */
  function Commit(db: Db, c: Claimed, fireAt: int, nextFireAt: int): Db {
    if CanAdvance(db, c) then Advance(RecordRun(db, Run(c.name, fireAt)), c.name, nextFireAt) else db
  }

  // ----- a first candidate exists whenever anything is claimable -----

  lemma {:induction false} FirstOf(db: Db, names: set<string>) returns (first: string)
    requires names != {} && names <= db.schedules.Keys
    ensures first in names && forall other :: other in names && other != first ==> Before(db, first, other)
  {
    var pick :| pick in names;
    var rest := names - {pick};
    if rest == {} {
      first := pick;
      assert names == {pick};
    } else {
      var best := FirstOf(db, rest);
      LessTotal(pick, best);
      if Before(db, pick, best) {
        first := pick;
        forall other | other in rest && other != best ensures Before(db, pick, other) {
          BeforeTransitive(db, pick, best, other);
        }
      } else {
        first := best;
      }
      assert names == rest + {pick};
    }
  }

  lemma BeforeTransitive(db: Db, a: string, b: string, c: string)
    requires {a, b, c} <= db.schedules.Keys && Before(db, a, b) && Before(db, b, c)
    ensures Before(db, a, c)
  {
    if db.schedules[a].nextFireAt == db.schedules[b].nextFireAt == db.schedules[c].nextFireAt {
      LessTransitive(a, b, c);
    }
  }

  lemma CandidateExists(db: Db, now: int, name: string)
    requires name in db.schedules && Claimable(db.schedules[name], now)
    ensures exists first :: IsCandidate(db, now, first)
  {
    var due := set n | n in db.schedules && Claimable(db.schedules[n], now);
    assert name in due;
    var first := FirstOf(db, due);
    assert IsCandidate(db, now, first);
  }

  lemma CandidateUnique(db: Db, now: int, a: string, b: string)
    requires IsCandidate(db, now, a) && IsCandidate(db, now, b)
    ensures a == b
  {
    if a != b && Less(a, b) { LessAsymmetric(a, b); }
  }

  /**
   A claim that meets a schedule no longer registered deletes it and reports nothing run, although another
   schedule may be due: that one is then the first candidate, or some other is.
   */
  lemma NothingRunThoughDue(db: Db, now: int, first: string, other: string)
    requires IsCandidate(db, now, first) && other != first
    requires other in db.schedules && Claimable(db.schedules[other], now)
    ensures exists name :: IsCandidate(Delete(db, first), now, name)
  {
    CandidateExists(Delete(db, first), now, other);
  }

  // ----- what a claim and a commit come to -----

  /** Not due yet, or leased to somebody whose lease has not run out. */
  predicate Busy(row: Row, now: int) {
    now < row.nextFireAt || (row.lease.Some? && now < row.lease.value.expiresAt)
  }

  /** Earlier, or at the same time and first by name. */
  ghost predicate ComesFirst(a: string, first: Row, b: string, second: Row) {
    || first.nextFireAt < second.nextFireAt
    || (first.nextFireAt == second.nextFireAt
        && exists k :: 0 <= k <= |a| && k < |b| && a[..k] == b[..k] && (k == |a| || a[k] < b[k]))
  }

  /** The claim query selects the first schedule that is not busy. */
  lemma CandidateExactly(db: Db, now: int, name: string)
    ensures IsCandidate(db, now, name) <==>
      && name in db.schedules && !Busy(db.schedules[name], now)
      && forall other :: other in db.schedules && other != name && !Busy(db.schedules[other], now) ==>
           ComesFirst(name, db.schedules[name], other, db.schedules[other])
  {
    forall other { LessExactly(name, other); }
  }

  /**
   What a commit does. Under its lease, and with the schedule still at the slot that was claimed, the run is
   recorded and gets a job unless it was recorded before, and the schedule moves on, free. Else nothing happens.
   */
  lemma CommitExactly(db: Db, c: Claimed, fireAt: int, nextFireAt: int)
    ensures var after := Commit(db, c, fireAt, nextFireAt);
      var run := Run(c.name, fireAt);
      if c.name in db.schedules && db.schedules[c.name].nextFireAt == c.nextFireAt
         && db.schedules[c.name].lease.Some? && db.schedules[c.name].lease.value.token == c.token
      then
        && after.runs == db.runs + {run} && after.jobs == db.jobs + (if run in db.runs then [] else [run])
        && after.schedules == db.schedules[c.name := Row(db.schedules[c.name].expression, nextFireAt, None)]
      else after == db
  {
    assert db.jobs + [] == db.jobs;
    if Run(c.name, fireAt) in db.runs { assert db.runs + {Run(c.name, fireAt)} == db.runs; }
  }

  /** A release frees the schedule under the token it was leased with, and does nothing else. */
  lemma ReleaseExactly(db: Db, name: string, token: nat)
    ensures var after := Release(db, name, token);
      && after.runs == db.runs && after.jobs == db.jobs && after.schedules.Keys == db.schedules.Keys
      && forall other :: other in db.schedules ==>
           var row := db.schedules[other];
           after.schedules[other]
             == if other == name && row.lease.Some? && row.lease.value.token == token
                then Row(row.expression, row.nextFireAt, None) else row
  {
  }

  // ----- the adapter and the engine step -----

  class Store {
    var schedules: map<string, Row>
    var runs: set<Run>
    var jobs: seq<Run>
    /** Lease tokens are random identifiers that never repeat. */
    var nextToken: nat

    ghost function State(): Db
      reads this
    {
      Db(schedules, runs, jobs)
    }

    constructor ()
      ensures State() == Db(map[], {}, []) && nextToken == 0
    {
      schedules, runs, jobs, nextToken := map[], {}, [], 0;
    }

    method ClaimNextCronSchedule(now: int, leaseMs: int) returns (r: Option<Claimed>)
      modifies this
      ensures nextToken == old(nextToken) + 1
      ensures r.None? ==> State() == old(State()) && forall name :: !IsCandidate(State(), now, name)
      ensures r.None? <==> forall name :: name in old(schedules) ==> Busy(old(schedules)[name], now)
      ensures r.Some? ==> var c := r.value;
        && IsCandidate(old(State()), now, c.name) && c.token == old(nextToken)
        && c.nextFireAt == old(schedules)[c.name].nextFireAt
        && State() == SetLease(old(State()), c.name, Some(Lease(c.token, now + leaseMs)))
    {
      var token := nextToken;
      nextToken := nextToken + 1;
      if name :| name in schedules && Claimable(schedules[name], now) {
        CandidateExists(State(), now, name);
        assert exists n :: n in schedules && IsCandidate(State(), now, n);
        var first :| first in schedules && IsCandidate(Db(schedules, runs, jobs), now, first);
        var row := schedules[first];
        schedules := schedules[first := row.(lease := Some(Lease(token, now + leaseMs)))];
        r := Some(Claimed(first, row.nextFireAt, token));
      } else {
        r := None;
      }
    }

    method ReleaseCronScheduleLease(name: string, token: nat)
      modifies this`schedules
      ensures State() == Release(old(State()), name, token)
    {
      if name in schedules && schedules[name].lease.Some? && schedules[name].lease.value.token == token {
        schedules := schedules[name := schedules[name].(lease := None)];
      }
    }

    method DeleteCronSchedule(name: string)
      modifies this`schedules
      ensures State() == Delete(old(State()), name)
    {
      schedules := schedules - {name};
    }

    method UpsertCronSchedule(name: string, expression: Expression, nextFireAtMs: int)
      modifies this`schedules
      ensures State() == Upsert(old(State()), name, expression, nextFireAtMs)
    {
      schedules := schedules[name := Row(expression, nextFireAtMs, None)];
    }

    method InsertCronRun(name: string, fireAtMs: int) returns (inserted: bool)
      modifies this`runs
      ensures inserted <==> Run(name, fireAtMs) !in old(runs)
      ensures runs == old(runs) + {Run(name, fireAtMs)}
    {
      inserted := Run(name, fireAtMs) !in runs;
      runs := runs + {Run(name, fireAtMs)};
    }

    method EnqueueCronJob(name: string, fireAtMs: int)
      modifies this`jobs
      ensures jobs == old(jobs) + [Run(name, fireAtMs)]
    {
      jobs := jobs + [Run(name, fireAtMs)];
    }

    /** False stands for the error thrown when no row changed. */
    method AdvanceCronSchedule(name: string, fireAtMs: int, nextFireAtMs: int, token: nat) returns (ok: bool)
      modifies this`schedules
      ensures ok <==> CanAdvance(old(State()), Claimed(name, fireAtMs, token))
      ensures State() == if ok then Advance(old(State()), name, nextFireAtMs) else old(State())
    {
      ok := name in schedules && schedules[name].nextFireAt == fireAtMs
        && schedules[name].lease.Some? && schedules[name].lease.value.token == token;
      if ok {
        schedules := schedules[name := schedules[name].(nextFireAt := nextFireAtMs, lease := None)];
      }
    }

    /** Insert, enqueue and advance in one root transaction. */
    method CommitWindow(c: Claimed, fireAtMs: int, nextFireAtMs: int) returns (ok: bool)
      modifies this`schedules, this`runs, this`jobs
      ensures ok <==> CanAdvance(old(State()), c)
      ensures State() == Commit(old(State()), c, fireAtMs, nextFireAtMs)
    {
      var schedules0, runs0, jobs0 := schedules, runs, jobs;
      var inserted := InsertCronRun(c.name, fireAtMs);
      if inserted {
        EnqueueCronJob(c.name, fireAtMs);
      } else {
        assert runs == runs0;
      }
      assert State() == RecordRun(old(State()), Run(c.name, fireAtMs));
      ok := AdvanceCronSchedule(c.name, c.nextFireAt, nextFireAtMs, c.token);
      if !ok {
        schedules, runs, jobs := schedules0, runs0, jobs0;
      }
    }

    /**
     One engine step, with nobody else at work. `registry` holds the registered schedules and
     `now` is the clock after the claim. The result is the run recorded, if any; a schedule that never fires
     throws, and keeps its lease.
     */
    method ProcessNextCronSchedule(registry: map<string, Expression>, claimNow: int, now: int, leaseMs: int)
      returns (r: Option<Run>, threw: bool)
      requires forall name :: name in registry ==> ValidSchedule(registry[name].schedule)
      requires forall name :: name in schedules ==>
        MS_PER_MINUTE * MINUTES_PER_DAY * DayFromYear(100) <= schedules[name].nextFireAt
      requires claimNow <= now
      modifies this
      ensures (forall name :: !IsCandidate(old(State()), claimNow, name)) ==>
        r.None? && !threw && State() == old(State())
      ensures forall name :: IsCandidate(old(State()), claimNow, name) ==>
        if name !in registry then
          r.None? && !threw && State() == Delete(old(State()), name)
        else if NeverFires(registry[name].schedule) then
          r.None? && threw && State() == SetLease(old(State()), name, Some(Lease(old(nextToken), claimNow + leaseMs)))
        else
          && r.Some? && !threw && r.value.name == name && r.value.fireAt <= now
          && name in State().schedules
          && IsWindow(registry[name].schedule, old(schedules)[name].nextFireAt, now,
                      r.value.fireAt, State().schedules[name].nextFireAt)
          && State() == Advance(RecordRun(old(State()), r.value), name, State().schedules[name].nextFireAt)
    {
      threw := false;
      var claimed := ClaimNextCronSchedule(claimNow, leaseMs);
      if claimed.None? { return None, false; }
      var c := claimed.value;
      forall name | IsCandidate(old(State()), claimNow, name) ensures name == c.name {
        CandidateUnique(old(State()), claimNow, name, c.name);
      }
      if c.name !in registry {
        ReleaseCronScheduleLease(c.name, c.token);
        DeleteCronSchedule(c.name);
        assert schedules == old(schedules) - {c.name};
        return None, false;
      }
      var window := ResolveNextCronExecutionWindow(registry[c.name].schedule, c.nextFireAt, now);
      if window.None? { return None, true; }
      var (fireAtMs, nextFireAtMs) := window.value;
      var ok := CommitWindow(c, fireAtMs, nextFireAtMs);
      r := Some(Run(c.name, fireAtMs));
      AdvanceForgetsLease(old(State()), c, now, leaseMs, claimNow, fireAtMs, nextFireAtMs);
    }

    /**
     Bring the table in line with the registered schedules. False stands for the error thrown when
     a changed schedule never fires; the rows written before it stay written, `left` names the rest.
     */
    method SyncRegisteredCrons(registry: map<string, Expression>, now: int) returns (ok: bool, ghost left: set<string>)
      requires forall name :: name in registry ==> ValidSchedule(registry[name].schedule)
      requires MS_PER_MINUTE * MINUTES_PER_DAY * DayFromYear(100) <= now
      modifies this`schedules
      ensures ok <==> forall name :: name in registry ==> CanSync(old(State()), registry, name)
      ensures ok ==> schedules.Keys == registry.Keys
      ensures ok ==> forall name :: name in registry ==> SyncedRow(old(State()), schedules, registry, name, now)
      ensures ok ==> forall name :: name in registry ==>
        if name in old(schedules) && old(schedules)[name].expression.text == registry[name].text
        then schedules[name] == old(schedules)[name]
        else
          && schedules[name].expression == registry[name] && schedules[name].lease.None?
          && IsNextFire(registry[name].schedule, now, schedules[name].nextFireAt)
      ensures !ok ==> SyncProgress(old(State()), schedules, registry, left, now)
    {
      ghost var db := State();
      var todo := registry.Keys;
      while todo != {}
        invariant todo <= registry.Keys && SyncProgress(db, schedules, registry, todo, now)
        decreases todo
      {
        var name :| name in todo;
        ghost var before := schedules;
        ok := SyncOne(registry, name, now, db);
        if !ok {
          return false, todo;
        }
        SyncTurn(db, before, schedules, registry, todo, name, now);
        todo := todo - {name};
      }
      SyncEnd(db, schedules, registry, now);
      schedules := schedules - (schedules.Keys - registry.Keys);
      return true, {};
    }

    method SyncOne(registry: map<string, Expression>, name: string, now: int, ghost db: Db) returns (ok: bool)
      requires name in registry && ValidSchedule(registry[name].schedule)
      requires name in schedules <==> name in db.schedules
      requires name in schedules ==> schedules[name] == db.schedules[name]
      requires MS_PER_MINUTE * MINUTES_PER_DAY * DayFromYear(100) <= now
      modifies this`schedules
      ensures ok <==> CanSync(db, registry, name)
      ensures !ok ==> schedules == old(schedules)
      ensures ok ==> name in schedules && schedules == old(schedules)[name := schedules[name]]
      ensures ok ==> SyncedRow(db, schedules, registry, name, now)
    {
      if name in schedules && schedules[name].expression.text == registry[name].text {
        return true;
      }
      var next := ComputeNextCronFireTime(registry[name].schedule, now);
      if next.None? { return false; }
      UpsertCronSchedule(name, registry[name], next.value);
      return true;
    }
  }

  /** A schedule that is new, or whose registered expression is not written as the stored one is. */
  predicate NeedsUpsert(db: Db, registry: map<string, Expression>, name: string)
    requires name in registry
  {
    !(name in db.schedules && db.schedules[name].expression.text == registry[name].text)
  }

  /** A changed schedule can only be written when it fires at all. */
  predicate CanSync(db: Db, registry: map<string, Expression>, name: string)
    requires name in registry && ValidSchedule(registry[name].schedule)
  {
    NeedsUpsert(db, registry, name) ==> !NeverFires(registry[name].schedule)
  }

  /** Half way through a sync: names still to do have their old row, the others their final one. */
  ghost predicate SyncProgress(
    db: Db, after: map<string, Row>, registry: map<string, Expression>, todo: set<string>, now: int)
    requires forall name :: name in registry ==> ValidSchedule(registry[name].schedule)
  {
    && (forall name :: name in after <==> name in db.schedules || (name in registry && name !in todo))
    && (forall name :: name in db.schedules && (name in todo || name !in registry) ==>
         after[name] == db.schedules[name])
    && (forall name :: name in registry && name !in todo ==>
         CanSync(db, registry, name) && SyncedRow(db, after, registry, name, now))
  }

  lemma SyncTurn(
    db: Db, before: map<string, Row>, after: map<string, Row>, registry: map<string, Expression>,
    todo: set<string>, name: string, now: int)
    requires forall n :: n in registry ==> ValidSchedule(registry[n].schedule)
    requires name in todo && todo <= registry.Keys && SyncProgress(db, before, registry, todo, now)
    requires name in after && after == before[name := after[name]]
    requires CanSync(db, registry, name) && SyncedRow(db, after, registry, name, now)
    ensures SyncProgress(db, after, registry, todo - {name}, now)
  {
    forall n | n in registry && n !in todo - {name}
      ensures CanSync(db, registry, n) && SyncedRow(db, after, registry, n, now)
    {
      if n != name { assert SyncedRow(db, before, registry, n, now); }
    }
  }

  /** Deleting the stale names finishes a sync. */
  lemma SyncEnd(db: Db, rows: map<string, Row>, registry: map<string, Expression>, now: int)
    requires forall n :: n in registry ==> ValidSchedule(registry[n].schedule)
    requires SyncProgress(db, rows, registry, {}, now)
    ensures var after := rows - (rows.Keys - registry.Keys);
      && after.Keys == registry.Keys
      && forall n :: n in registry ==> CanSync(db, registry, n) && SyncedRow(db, after, registry, n, now)
  {
    var after := rows - (rows.Keys - registry.Keys);
    forall n | n in registry
      ensures CanSync(db, registry, n) && SyncedRow(db, after, registry, n, now)
    {
      assert SyncedRow(db, rows, registry, n, now);
    }
  }

  /** Unchanged schedules keep their row, lease included; the others restart from the clock, unleased. */
  ghost predicate SyncedRow(
    db: Db, after: map<string, Row>, registry: map<string, Expression>, name: string, now: int)
    requires name in registry
  {
    && name in after
    && if NeedsUpsert(db, registry, name)
       then
         && after[name].expression == registry[name] && after[name].lease == None
         && IsNextFire(registry[name].schedule, now, after[name].nextFireAt)
       else after[name] == db.schedules[name]
  }

  /** Claiming and then committing leaves the tables as if the schedule had been advanced directly. */
  lemma AdvanceForgetsLease(db: Db, c: Claimed, now: int, leaseMs: int, claimNow: int, fireAt: int, nextFireAt: int)
    requires c.name in db.schedules && db.schedules[c.name].nextFireAt == c.nextFireAt
    ensures var leased := SetLease(db, c.name, Some(Lease(c.token, claimNow + leaseMs)));
      Commit(leased, c, fireAt, nextFireAt) == Advance(RecordRun(db, Run(c.name, fireAt)), c.name, nextFireAt)
  {
  }
}

/** Draining: run due cron schedules and queue jobs in turn until nothing is left or a limit is met. */
module Drain {
  import opened Wrappers
  import CronExpression
  import CronSearch
  import CronStore
  import QueueTable

  datatype Source = Cron | Queue

  /** What taking the next item of a source comes to. */
  datatype Answer = Empty | Ran | Threw

  /** The tables as a probe finds them, what is registered, and whether the item it takes fails. */
  datatype Tables = Tables(
    cron: CronStore.Db, registry: map<string, CronStore.Expression>,
    jobs: seq<QueueTable.Job>, queues: set<string>, fails: bool)

  /** `at` is the reading the deadline is checked with, `claimedAt` the one the claim is made with. */
  datatype Probe = Probe(source: Source, answer: Answer, at: int, claimedAt: int, tables: Tables)

  datatype StopReason = MaxDuration | MaxRuns | Idle

  datatype Drained = Drained(cronSchedules: nat, queueJobs: nat, idle: bool, stopReason: StopReason)

  const NO_TABLES := Tables(CronStore.Db(map[], {}, []), map[], [], {}, false)

  /** The tables that probe `i` finds. */
  function Found(world: seq<Tables>, i: nat): Tables {
    if i < |world| then world[i] else NO_TABLES
  }

  /** The probes found the tables of the world, one after the other. */
  ghost predicate Recorded(probes: seq<Probe>, world: seq<Tables>, from: nat) {
    forall k :: 0 <= k < |probes| ==> probes[k].tables == Found(world, from + k)
  }

  /** No job is claimable; or no schedule is, or the first one that is has its registration gone. */
  predicate NothingToRun(source: Source, t: Tables, now: int) {
    match source
    case Cron =>
      forall name :: name in t.cron.schedules && CronStore.IsCandidate(t.cron, now, name) ==> name !in t.registry
    case Queue => forall i :: 0 <= i < |t.jobs| ==> !QueueTable.Claimable(t.jobs[i], t.queues, now)
  }

  /** The search for the next fire time throws on a schedule that is not valid or never fires. */
  predicate Unschedulable(t: Tables, name: string)
    requires name in t.registry
  {
    !CronExpression.ValidSchedule(t.registry[name].schedule) || CronSearch.NeverFires(t.registry[name].schedule)
  }

  /** The item that is taken fails, or is a schedule with no next fire time. */
  predicate Fails(source: Source, t: Tables, now: int) {
    || t.fails
    || (source.Cron?
        && exists name :: name in t.cron.schedules && name in t.registry
             && CronStore.IsCandidate(t.cron, now, name) && Unschedulable(t, name))
  }

  /** What the sources say when they are asked: empty exactly when there is nothing to run, and an error exactly when that fails. */
  ghost predicate Answered(probes: seq<Probe>) {
    forall i :: 0 <= i < |probes| ==>
      && (probes[i].answer.Empty? <==> NothingToRun(probes[i].source, probes[i].tables, probes[i].claimedAt))
      && (!probes[i].answer.Empty? ==>
            (probes[i].answer.Threw? <==> Fails(probes[i].source, probes[i].tables, probes[i].claimedAt)))
  }

  /** When the cron tables have nothing to run: no schedule is due, or the first one due is not registered any more. */
  lemma CronEmptyExactly(t: Tables, now: int)
    ensures NothingToRun(Cron, t, now) <==>
      || (forall name :: name in t.cron.schedules ==> !CronStore.Claimable(t.cron.schedules[name], now))
      || (exists name :: CronStore.IsCandidate(t.cron, now, name) && name !in t.registry)
  {
    forall name | name in t.cron.schedules && CronStore.Claimable(t.cron.schedules[name], now)
      ensures exists first :: CronStore.IsCandidate(t.cron, now, first)
    {
      CronStore.CandidateExists(t.cron, now, name);
    }
    forall a, b | CronStore.IsCandidate(t.cron, now, a) && CronStore.IsCandidate(t.cron, now, b) ensures a == b {
      CronStore.CandidateUnique(t.cron, now, a, b);
    }
  }

  function Other(source: Source): Source {
    if source.Cron? then Queue else Cron
  }

  function Runs(probes: seq<Probe>, source: Source): nat {
    if probes == [] then 0
    else
      var last := probes[|probes| - 1];
      Runs(probes[..|probes| - 1], source) + if last.answer.Ran? && last.source == source then 1 else 0
  }

  /** No item of `source` was run at a position strictly between. */
  predicate NoneRun(probes: seq<Probe>, i: int, j: int) {
    forall k :: 0 <= k < |probes| && i < k < j ==> !probes[k].answer.Ran?
  }

  predicate EmptyBetween(probes: seq<Probe>, source: Source, i: int, j: int) {
    exists k :: 0 <= k < |probes| && i < k < j && probes[k].source == source && probes[k].answer.Empty?
  }

  predicate InARow(probes: seq<Probe>, i: int, j: int)
    requires 0 <= i < j < |probes|
  {
    probes[i].answer.Ran? && probes[j].answer.Ran? && probes[i].source == probes[j].source && NoneRun(probes, i, j)
  }

  /** Neither source starves: two runs in a row from one source have the other found empty in between. */
  ghost predicate Fair(probes: seq<Probe>) {
    forall i, j :: 0 <= i < j < |probes| && InARow(probes, i, j) ==> EmptyBetween(probes, Other(probes[i].source), i, j)
  }

  /** Nothing was started at or after the deadline. */
  ghost predicate InTime(probes: seq<Probe>, startedAt: int, maxDuration: Option<nat>) {
    forall i :: 0 <= i < |probes| && maxDuration.Some? ==> probes[i].at - startedAt < maxDuration.value
  }

  lemma FairAppend(probes: seq<Probe>, more: seq<Probe>)
    requires Fair(probes) && 1 <= |more| <= 2
    requires probes != [] ==> probes[|probes| - 1].answer.Ran? && more[0].source == Other(probes[|probes| - 1].source)
    requires |more| == 2 ==> more[0].answer.Empty? && more[1].source == Other(more[0].source)
    ensures Fair(probes + more)
  {
    var all := probes + more;
    var n := |probes|;
    assert n > 0 ==> all[n - 1] == probes[n - 1];
    forall i, j | 0 <= i < j < |all| && InARow(all, i, j)
      ensures EmptyBetween(all, Other(all[i].source), i, j)
    {
      if j < n {
        assert InARow(probes, i, j) by {
          forall k | 0 <= k < |probes| && i < k < j ensures !probes[k].answer.Ran? { assert all[k] == probes[k]; }
        }
        assert EmptyBetween(probes, Other(probes[i].source), i, j);
        var k :| 0 <= k < |probes| && i < k < j && probes[k].source == Other(probes[i].source) && probes[k].answer.Empty?;
        assert all[k] == probes[k];
      } else if n > 0 && i < n - 1 {
        assert false;
      } else {
        assert j == n + 1 && all[n] == more[0];
      }
    }
  }

  lemma RunsAppend(probes: seq<Probe>, more: seq<Probe>, source: Source)
    requires |more| <= 2
    ensures Runs(probes + more, source) == Runs(probes, source) + Runs(more, source)
  {
    if more == [] {
      assert probes + more == probes;
    } else {
      var n := |more| - 1;
      assert (probes + more)[..|probes| + n] == probes + more[..n];
      RunsAppend(probes, more[..n], source);
    }
  }

  /** What one turn adds: at most two probes, the second only after the first found nothing. */
  predicate Turn(first: Source, more: seq<Probe>) {
    && |more| <= 2
    && (|more| > 0 ==> more[0].source == first)
    && (|more| == 2 ==> more[0].answer.Empty? && more[1].source == Other(first))
  }

  /** The source that the turn's last probe ran something of. */
  function RanLast(probes: seq<Probe>): Option<Source> {
    if probes != [] && probes[|probes| - 1].answer.Ran? then Some(probes[|probes| - 1].source) else None
  }

  lemma AfterTurn(probes: seq<Probe>, more: seq<Probe>, first: Source, startedAt: int, maxDuration: Option<nat>)
    requires Fair(probes) && InTime(probes, startedAt, maxDuration)
    requires Turn(first, more) && InTime(more, startedAt, maxDuration)
    requires probes != [] ==> RanLast(probes) == Some(Other(first))
    ensures Fair(probes + more) && InTime(probes + more, startedAt, maxDuration)
    ensures forall source ::
      Runs(probes + more, source) == Runs(probes, source) + if RanLast(more) == Some(source) then 1 else 0
  {
    if more == [] {
      assert probes + more == probes;
    } else {
      FairAppend(probes, more);
      RunsAppend(probes, more, Cron);
      RunsAppend(probes, more, Queue);
      forall source
        ensures Runs(probes + more, source) == Runs(probes, source) + if RanLast(more) == Some(source) then 1 else 0
      {
        RunsOfTurn(first, more, source);
      }
    }
  }

  lemma RunsOfTurn(first: Source, more: seq<Probe>, source: Source)
    requires Turn(first, more)
    ensures Runs(more, source) == if RanLast(more) == Some(source) then 1 else 0
  {
    if |more| == 2 { assert Runs(more[..1], source) == 0; }
  }

  /** A drain that a job made throw. */
  predicate Aborted(probes: seq<Probe>) {
    probes != [] && probes[|probes| - 1].answer.Threw?
  }

  /** Both sources were found empty, one right after the other. */
  predicate BothEmpty(probes: seq<Probe>) {
    var n := |probes|;
    && n >= 2 && probes[n - 1].answer.Empty? && probes[n - 2].answer.Empty?
    && probes[n - 2].source == Other(probes[n - 1].source)
  }

  /** When the last two probes were made, neither source had anything to run. */
  predicate NothingFound(probes: seq<Probe>) {
    var n := |probes|;
    && n >= 2
    && NothingToRun(probes[n - 1].source, probes[n - 1].tables, probes[n - 1].claimedAt)
    && NothingToRun(probes[n - 2].source, probes[n - 2].tables, probes[n - 2].claimedAt)
  }

  lemma EmptyMeansNothing(probes: seq<Probe>)
    requires Answered(probes) && BothEmpty(probes)
    ensures NothingFound(probes)
  {
    hide NothingToRun;
    hide Fails;
  }

  lemma AnsweredAppend(probes: seq<Probe>, more: seq<Probe>, world: seq<Tables>)
    requires Answered(probes) && Answered(more) && Recorded(probes, world, 0) && Recorded(more, world, |probes|)
    ensures Answered(probes + more) && Recorded(probes + more, world, 0)
  {
    hide NothingToRun;
    hide Fails;
  }

  lemma LateNow(clock: nat -> int, startedAt: int, maxDuration: Option<nat>, tick: nat)
    requires tick > 0 && maxDuration.Some? && clock(tick - 1) - startedAt >= maxDuration.value
    ensures DeadlinePassed(clock, startedAt, maxDuration, tick)
  {
  }

  lemma NothingYet(startedAt: int, maxDuration: Option<nat>, world: seq<Tables>)
    ensures Recorded([], world, 0)
    ensures Fair([]) && InTime([], startedAt, maxDuration) && !Aborted([]) && Answered([])
    ensures Runs([], Cron) == 0 && Runs([], Queue) == 0
  {
  }

  /** Some clock reading before the `tick`-th was at or after the deadline. */
  ghost predicate DeadlinePassed(clock: nat -> int, startedAt: int, maxDuration: Option<nat>, tick: nat) {
    maxDuration.Some? && exists i: nat :: i < tick && clock(i) - startedAt >= maxDuration.value
  }

  /**
   The engine as the drain sees it: a clock, and the tables each probe will find. Handlers and other processes
   change them in between in any way, until at last they are empty.
   */
  class Engine {
    const clock: nat -> int
    const world: seq<Tables>
    var tick: nat
    var taken: nat
    ghost var probes: seq<Probe>

    constructor (clock: nat -> int, world: seq<Tables>)
      ensures this.clock == clock && this.world == world && tick == 0 && taken == 0 && probes == []
    {
      this.clock, this.world := clock, world;
      tick, taken, probes := 0, 0, [];
    }

    method Now() returns (now: int)
      modifies this`tick
      ensures now == clock(old(tick)) && tick == old(tick) + 1
    {
      now := clock(tick);
      tick := tick + 1;
    }

    /** Claim the first item of the source, if there is one, and run it. */
    method ProcessNext(source: Source, at: int) returns (answer: Answer)
      modifies this`tick, this`taken, this`probes
      ensures tick == old(tick) + 1 && taken == old(taken) + 1
      ensures probes == old(probes) + [Probe(source, answer, at, clock(old(tick)), Found(world, old(taken)))]
      ensures answer.Empty? <==> NothingToRun(source, Found(world, old(taken)), clock(old(tick)))
      ensures !answer.Empty? ==> (answer.Threw? <==> Fails(source, Found(world, old(taken)), clock(old(tick))))
      ensures !answer.Empty? ==> old(taken) < |world|
    {
      var now := Now();
      var t := Found(world, taken);
      answer := Empty;
      if source.Cron? {
        if name :| name in t.cron.schedules && CronStore.IsCandidate(t.cron, now, name) {
          forall other | CronStore.IsCandidate(t.cron, now, other) ensures other == name {
            CronStore.CandidateUnique(t.cron, now, other, name);
          }
          if name in t.registry {
            // the search for the next fire time throws on a schedule that is not valid or never fires
            var schedule := t.registry[name].schedule;
            answer :=
              if t.fails || !CronExpression.ValidSchedule(schedule) || CronSearch.NeverFires(schedule)
              then Threw else Ran;
          }
        }
      } else {
        var i := QueueTable.NextClaimable(t.jobs, t.queues, now, 0);
        if i < |t.jobs| { answer := if t.fails then Threw else Ran; }
      }
      taken, probes := taken + 1, probes + [Probe(source, answer, at, now, t)];
    }

    /** One turn: the first source if it has something to run, else the other. `late` is a deadline that has passed. */
    method DrainInPriorityOrder(first: Source, startedAt: int, maxDuration: Option<nat>)
      returns (ran: Option<Source>, late: bool, threw: bool)
      modifies this`tick, this`taken, this`probes
      ensures taken == old(taken) + |probes| - |old(probes)| && old(probes) <= probes && |probes| <= |old(probes)| + 2
      ensures InTime(probes[|old(probes)|..], startedAt, maxDuration)
      ensures Turn(first, probes[|old(probes)|..]) && RanLast(probes[|old(probes)|..]) == ran
      ensures ran.Some? ==> RanLast(probes) == ran && !threw && !late
      ensures threw ==> Aborted(probes) && !late
      ensures late || threw || ran.Some? || BothEmpty(probes)
      ensures !threw && probes != old(probes) ==> !Aborted(probes)
      ensures ran.Some? ==> old(taken) < taken <= |world|
      ensures Answered(probes[|old(probes)|..])
      ensures Recorded(probes[|old(probes)|..], world, old(taken))
      ensures late ==> DeadlinePassed(clock, startedAt, maxDuration, tick)
      ensures tick >= old(tick)
    {
      ghost var before := probes;
      ran, late, threw := None, false, false;
      var source := first;
      for turn := 0 to 2
        invariant |probes| == |before| + turn && before <= probes && taken == old(taken) + turn
        invariant source == if turn == 1 then Other(first) else first
        invariant ran == None && !late && !threw && tick >= old(tick)
        invariant InTime(probes[|before|..], startedAt, maxDuration)
        invariant forall k :: |before| <= k < |probes| ==> probes[k].answer.Empty?
        invariant Answered(probes[|before|..])
        invariant Recorded(probes[|before|..], world, old(taken))
        invariant turn > 0 ==> probes[|before|].source == first
        invariant turn > 1 ==> probes[|before| + 1].source == Other(first)
      {
        var now := Now();
        if maxDuration.Some? && now - startedAt >= maxDuration.value {
          late := true;
          return;
        }
        var answer := ProcessNext(source, now);
        if answer.Threw? {
          threw := true;
          return;
        }
        if answer.Ran? {
          ran := Some(source);
          return;
        }
        source := Other(source);
      }
    }

    /** None stands for the error of a job that threw, which ends the drain. */
    method Drain(maxDuration: Option<nat>, maxRuns: Option<nat>) returns (r: Option<Drained>)
      requires probes == [] && taken == 0
      modifies this`tick, this`taken, this`probes
      ensures Fair(probes) && InTime(probes, clock(old(tick)), maxDuration) && Answered(probes)
      ensures Recorded(probes, world, 0)
      ensures probes != [] ==> probes[0].source == Cron
      ensures r.None? <==> Aborted(probes)
      ensures r.Some? ==> r.value.cronSchedules == Runs(probes, Cron) && r.value.queueJobs == Runs(probes, Queue)
      ensures maxRuns.Some? ==> Runs(probes, Cron) + Runs(probes, Queue) <= maxRuns.value
      ensures r.Some? ==> (r.value.idle <==> r.value.stopReason.Idle?)
      ensures r.Some? ==> match r.value.stopReason
        case Idle => BothEmpty(probes) && NothingFound(probes)
        case MaxRuns => maxRuns.Some? && Runs(probes, Cron) + Runs(probes, Queue) == maxRuns.value
        case MaxDuration => DeadlinePassed(clock, clock(old(tick)), maxDuration, tick)
    {
      NothingYet(clock(tick), maxDuration, world);
      hide Fair;
      hide InTime;
      hide Runs;
      hide RanLast;
      hide Aborted;
      hide BothEmpty;
      hide Turn;
      hide DeadlinePassed;
      hide Answered;
      hide Recorded;
      hide NothingFound;
      hide NothingToRun;
      hide Fails;
      hide Found;
      var startedAt := Now();
      var cronSchedules: nat, queueJobs: nat, nextPriority := 0, 0, Cron;
      while maxRuns.None? || cronSchedules + queueJobs < maxRuns.value
        invariant cronSchedules == Runs(probes, Cron) && queueJobs == Runs(probes, Queue)
        invariant maxRuns.Some? ==> cronSchedules + queueJobs <= maxRuns.value
        invariant Fair(probes) && InTime(probes, startedAt, maxDuration) && Answered(probes)
        invariant taken == |probes| <= |world| && tick > old(tick)
        invariant probes != [] ==> RanLast(probes) == Some(Other(nextPriority))
        invariant !Aborted(probes) && Recorded(probes, world, 0)
        invariant if probes == [] then nextPriority == Cron else probes[0].source == Cron
        decreases |world| - taken
      {
        var now := Now();
        if maxDuration.Some? && now - startedAt >= maxDuration.value {
          LateNow(clock, startedAt, maxDuration, tick);
          return Some(Drained(cronSchedules, queueJobs, false, MaxDuration));
        }
        ghost var before := probes;
        var ran, late, threw := DrainInPriorityOrder(nextPriority, startedAt, maxDuration);
        AfterTurn(before, probes[|before|..], nextPriority, startedAt, maxDuration);
        AnsweredAppend(before, probes[|before|..], world);
        assert probes == before + probes[|before|..];
        if threw { return None; }
        if late { return Some(Drained(cronSchedules, queueJobs, false, MaxDuration)); }
        if ran.None? {
          EmptyMeansNothing(probes);
          return Some(Drained(cronSchedules, queueJobs, true, Idle));
        }
        if ran.value.Cron? { cronSchedules := cronSchedules + 1; } else { queueJobs := queueJobs + 1; }
        nextPriority := if ran.value.Cron? then Queue else Cron;
      }
      return Some(Drained(cronSchedules, queueJobs, false, MaxRuns));
    }
  }
}

/** The queue table: claiming one job or a batch, finishing, failing and the dead-letter queue. */
module QueueTable {
  import opened Wrappers
  import opened Json

  datatype Status = Pending | Processing | Completed | Failed | Dlq

  /** A row; its id is its position in the table. */
  datatype Job = Job(
    queue: string, payload: Json, status: Status, availableAt: int, attempts: nat, leaseExpiresAt: Option<int>)

  /** What a worker is handed. */
  datatype Claimed = Claimed(id: nat, queue: string, payload: Json, attempts: nat)

  predicate Claimable(job: Job, queues: set<string>, now: int) {
    job.queue in queues && (
      (job.status.Pending? && job.availableAt <= now) ||
      (job.status.Processing? && job.leaseExpiresAt.Some? && job.leaseExpiresAt.value <= now))
  }

  function Take(job: Job, expires: int): Job {
    job.(status := Processing, attempts := job.attempts + 1, leaseExpiresAt := Some(expires))
  }

  function Record(id: nat, job: Job): Claimed {
    Claimed(id, job.queue, job.payload, job.attempts)
  }

  /** The first claimable row from `from` on, or the length of the table. */
  function NextClaimable(jobs: seq<Job>, queues: set<string>, now: int, from: nat): (i: nat)
    requires from <= |jobs|
    ensures from <= i <= |jobs|
    ensures i < |jobs| ==> Claimable(jobs[i], queues, now)
    ensures forall k :: from <= k < i ==> !Claimable(jobs[k], queues, now)
    decreases |jobs| - from
  {
    if from == |jobs| || Claimable(jobs[from], queues, now) then from else NextClaimable(jobs, queues, now, from + 1)
  }

  function ClaimOne(jobs: seq<Job>, queues: set<string>, now: int, leaseMs: int): (Option<Claimed>, seq<Job>) {
    var i := NextClaimable(jobs, queues, now, 0);
    if i == |jobs| then (None, jobs)
    else
      var taken := Take(jobs[i], now + leaseMs);
      (Some(Record(i, taken)), jobs[i := taken])
  }

  /** `count` single claims in a row at one instant. */
  function ClaimTimes(jobs: seq<Job>, queues: set<string>, now: int, leaseMs: int, count: nat): (seq<Claimed>, seq<Job>)
    decreases count
  {
    if count == 0 then ([], jobs)
    else
      var (one, after) := ClaimOne(jobs, queues, now, leaseMs);
      var (more, last) := ClaimTimes(after, queues, now, leaseMs, count - 1);
      ((if one.Some? then [one.value] else []) + more, last)
  }

  /** The ids of the first `limit` claimable rows from `from` on. */
  function Candidates(jobs: seq<Job>, queues: set<string>, now: int, from: nat, limit: nat): (ids: seq<nat>)
    requires from <= |jobs|
    ensures forall i :: 0 <= i < |ids| ==> from <= ids[i] < |jobs|
    decreases |jobs| - from
  {
    if limit == 0 || from == |jobs| then []
    else if Claimable(jobs[from], queues, now) then [from] + Candidates(jobs, queues, now, from + 1, limit - 1)
    else Candidates(jobs, queues, now, from + 1, limit)
  }

  function TakeAll(jobs: seq<Job>, ids: seq<nat>, expires: int): (after: seq<Job>)
    ensures |after| == |jobs|
  {
    seq(|jobs|, i requires 0 <= i < |jobs| => if i in ids then Take(jobs[i], expires) else jobs[i])
  }

  function Records(jobs: seq<Job>, ids: seq<nat>): seq<Claimed>
    requires forall i :: 0 <= i < |ids| ==> ids[i] < |jobs|
  {
    seq(|ids|, i requires 0 <= i < |ids| => Record(ids[i], jobs[ids[i]]))
  }

  /** Select the candidates from `from` on, update them all, return them by id. */
  function ClaimFrom(jobs: seq<Job>, queues: set<string>, now: int, leaseMs: int, from: nat, limit: nat)
    : (seq<Claimed>, seq<Job>)
    requires from <= |jobs|
  {
    var ids := Candidates(jobs, queues, now, from, limit);
    var after := TakeAll(jobs, ids, now + leaseMs);
    (Records(after, ids), after)
  }

  /** The batch claim is that one statement over the whole table. */
  function ClaimBatch(jobs: seq<Job>, queues: set<string>, now: int, leaseMs: int, limit: nat)
    : (seq<Claimed>, seq<Job>)
  {
    ClaimFrom(jobs, queues, now, leaseMs, 0, limit)
  }

  // ----- a batch claim is so many single claims -----

  lemma {:induction false} CandidatesSuffix(a: seq<Job>, b: seq<Job>, queues: set<string>, now: int, from: nat, limit: nat)
    requires from <= |a| == |b| && a[from..] == b[from..]
    ensures Candidates(a, queues, now, from, limit) == Candidates(b, queues, now, from, limit)
    decreases |a| - from
  {
    if from < |a| && limit > 0 {
      assert a[from] == a[from..][0] == b[from..][0] == b[from];
      assert a[from + 1..] == a[from..][1..] && b[from + 1..] == b[from..][1..];
      if Claimable(a[from], queues, now) {
        CandidatesSuffix(a, b, queues, now, from + 1, limit - 1);
      } else {
        CandidatesSuffix(a, b, queues, now, from + 1, limit);
      }
    }
  }

  lemma {:induction false} NothingToClaim(jobs: seq<Job>, queues: set<string>, now: int, leaseMs: int, count: nat)
    requires forall i :: 0 <= i < |jobs| ==> !Claimable(jobs[i], queues, now)
    ensures ClaimTimes(jobs, queues, now, leaseMs, count) == ([], jobs)
  {
    if count > 0 {
      NothingToClaim(jobs, queues, now, leaseMs, count - 1);
      var none: seq<Claimed> := [];
      assert none + none == none;
    }
  }

  /** The claims of rows from `from` on, when those before are not claimable. */
  lemma {:induction false} ClaimsFrom(jobs: seq<Job>, queues: set<string>, now: int, leaseMs: int, from: nat, count: nat)
    requires from <= |jobs| && (leaseMs > 0 || count <= 1)
    requires count > 0 ==> forall i :: 0 <= i < from ==> !Claimable(jobs[i], queues, now)
    ensures ClaimTimes(jobs, queues, now, leaseMs, count) == ClaimFrom(jobs, queues, now, leaseMs, from, count)
    decreases |jobs| - from
  {
    hide ClaimTimes;
    hide ClaimFrom;
    if count == 0 || from == |jobs| {
      NoneFrom(jobs, queues, now, leaseMs, from, count);
    } else if !Claimable(jobs[from], queues, now) {
      SkipRow(jobs, queues, now, leaseMs, from, count);
      ClaimsFrom(jobs, queues, now, leaseMs, from + 1, count);
    } else {
      ClaimsFrom(jobs[from := Take(jobs[from], now + leaseMs)], queues, now, leaseMs, from + 1, count - 1);
      FirstClaim(jobs, queues, now, leaseMs, from, count);
      FirstOfBatch(jobs, queues, now, leaseMs, from, count);
    }
  }

  lemma NoneFrom(jobs: seq<Job>, queues: set<string>, now: int, leaseMs: int, from: nat, count: nat)
    requires from <= |jobs| && (count == 0 || from == |jobs|)
    requires count > 0 ==> forall i :: 0 <= i < from ==> !Claimable(jobs[i], queues, now)
    ensures ClaimFrom(jobs, queues, now, leaseMs, from, count) == ClaimTimes(jobs, queues, now, leaseMs, count)
  {
    if count > 0 { NothingToClaim(jobs, queues, now, leaseMs, count); }
    var ids := Candidates(jobs, queues, now, from, count);
    assert ids == [] && TakeAll(jobs, ids, now + leaseMs) == jobs && Records(jobs, ids) == [];
  }

  lemma SkipRow(jobs: seq<Job>, queues: set<string>, now: int, leaseMs: int, from: nat, count: nat)
    requires from < |jobs| && count > 0 && !Claimable(jobs[from], queues, now)
    ensures ClaimFrom(jobs, queues, now, leaseMs, from, count) == ClaimFrom(jobs, queues, now, leaseMs, from + 1, count)
  {
  }

  function Prepend(first: Claimed, rest: (seq<Claimed>, seq<Job>)): (seq<Claimed>, seq<Job>) {
    ([first] + rest.0, rest.1)
  }

  lemma FirstOfBatch(jobs: seq<Job>, queues: set<string>, now: int, leaseMs: int, from: nat, count: nat)
    requires from < |jobs| && count > 0 && Claimable(jobs[from], queues, now)
    ensures var taken := Take(jobs[from], now + leaseMs);
      ClaimFrom(jobs, queues, now, leaseMs, from, count)
        == Prepend(Record(from, taken), ClaimFrom(jobs[from := taken], queues, now, leaseMs, from + 1, count - 1))
  {
    var taken := Take(jobs[from], now + leaseMs);
    var jobs1 := jobs[from := taken];
    CandidatesHere(jobs, jobs1, queues, now, from, count);
    hide Candidates;
    hide TakeAll;
    hide Records;
    TakeFirst(jobs, now + leaseMs, from, Candidates(jobs1, queues, now, from + 1, count - 1));
  }

  lemma CandidatesHere(jobs: seq<Job>, jobs1: seq<Job>, queues: set<string>, now: int, from: nat, count: nat)
    requires from < |jobs| && count > 0 && Claimable(jobs[from], queues, now)
    requires |jobs1| == |jobs| && jobs1[from + 1..] == jobs[from + 1..]
    ensures Candidates(jobs, queues, now, from, count) == [from] + Candidates(jobs1, queues, now, from + 1, count - 1)
  {
    CandidatesSuffix(jobs, jobs1, queues, now, from + 1, count - 1);
  }

  lemma FirstClaim(jobs: seq<Job>, queues: set<string>, now: int, leaseMs: int, from: nat, count: nat)
    requires from < |jobs| && count > 0 && Claimable(jobs[from], queues, now)
    requires forall i :: 0 <= i < from ==> !Claimable(jobs[i], queues, now)
    ensures var taken := Take(jobs[from], now + leaseMs);
      ClaimTimes(jobs, queues, now, leaseMs, count)
        == Prepend(Record(from, taken), ClaimTimes(jobs[from := taken], queues, now, leaseMs, count - 1))
  {
    assert NextClaimable(jobs, queues, now, 0) == from;
  }

  lemma TakeFirst(jobs: seq<Job>, expires: int, first: nat, rest: seq<nat>)
    requires first < |jobs| && forall i :: 0 <= i < |rest| ==> first < rest[i] < |jobs|
    ensures var taken := Take(jobs[first], expires);
      var after := TakeAll(jobs, [first] + rest, expires);
      && TakeAll(jobs[first := taken], rest, expires) == after
      && Records(after, [first] + rest) == [Record(first, taken)] + Records(after, rest)
  {
    var taken := Take(jobs[first], expires);
    var after := TakeAll(jobs, [first] + rest, expires);
    forall i | 0 <= i < |jobs| ensures TakeAll(jobs[first := taken], rest, expires)[i] == after[i] {
      assert i in [first] + rest <==> i == first || i in rest;
    }
    assert after[first] == taken;
  }

  /** With leases that do not end at once a job is claimed but once; without, it is claimed again and again. */
  lemma BatchIsRepeatedClaims(jobs: seq<Job>, queues: set<string>, now: int, leaseMs: int, limit: nat)
    ensures ClaimBatch(jobs, queues, now, leaseMs, limit) == ClaimTimes(jobs, queues, now, leaseMs, limit)
      <==> leaseMs > 0 || limit <= 1 || forall i :: 0 <= i < |jobs| ==> !Claimable(jobs[i], queues, now)
  {
    if leaseMs > 0 || limit <= 1 {
      ClaimsFrom(jobs, queues, now, leaseMs, 0, limit);
    } else {
      var first := NextClaimable(jobs, queues, now, 0);
      NextIsFirst(jobs, queues, now, 0, limit);
      if first == |jobs| {
        NothingToClaim(jobs, queues, now, leaseMs, limit);
        assert TakeAll(jobs, [], now + leaseMs) == jobs;
      } else {
        SameJobTwice(jobs, queues, now, leaseMs, limit);
        var ids := Candidates(jobs, queues, now, 0, limit);
        var after := TakeAll(jobs, ids, now + leaseMs);
        assert |ids| > 1 ==> Records(after, ids)[1].id == ids[1] && ids[1] in ids[1..];
      }
    }
  }

  lemma {:induction false} NextIsFirst(jobs: seq<Job>, queues: set<string>, now: int, from: nat, limit: nat)
    requires from <= |jobs| && limit > 0
    ensures var ids := Candidates(jobs, queues, now, from, limit);
      var first := NextClaimable(jobs, queues, now, from);
      if first == |jobs| then ids == [] else ids != [] && ids[0] == first && forall id :: id in ids[1..] ==> id > first
    decreases |jobs| - from
  {
    if from < |jobs| && !Claimable(jobs[from], queues, now) { NextIsFirst(jobs, queues, now, from + 1, limit); }
  }

  /** A lease that is over at once lets the next claim take the same job. */
  lemma SameJobTwice(jobs: seq<Job>, queues: set<string>, now: int, leaseMs: int, count: nat)
    requires leaseMs <= 0 && count >= 2 && NextClaimable(jobs, queues, now, 0) < |jobs|
    ensures var claims := ClaimTimes(jobs, queues, now, leaseMs, count).0;
      |claims| >= 2 && claims[0].id == claims[1].id == NextClaimable(jobs, queues, now, 0)
  {
    var first := NextClaimable(jobs, queues, now, 0);
    var jobs1 := ClaimOne(jobs, queues, now, leaseMs).1;
    assert Claimable(jobs1[first], queues, now);
    assert NextClaimable(jobs1, queues, now, 0) == first;
    assert ClaimTimes(jobs1, queues, now, leaseMs, count - 1).0[0].id == first;
  }

  // ----- which job a claim takes -----

  /** A job of a listed queue that was never taken and whose time has come, or whose last taker's lease has run out. */
  predicate Ready(job: Job, queues: set<string>, now: int) {
    match job.status
    case Pending => job.queue in queues && now >= job.availableAt
    case Processing => job.queue in queues && job.leaseExpiresAt.Some? && now >= job.leaseExpiresAt.value
    case _ => false
  }

  /** A claim takes the first ready job, counts the attempt and leases it from now on; there is none if no job is ready. */
  lemma ClaimTakesFirstReady(jobs: seq<Job>, queues: set<string>, now: int, leaseMs: int)
    ensures var (one, after) := ClaimOne(jobs, queues, now, leaseMs);
      match one
      case None => after == jobs && forall i :: 0 <= i < |jobs| ==> !Ready(jobs[i], queues, now)
      case Some(c) =>
        && c.id < |jobs| && Ready(jobs[c.id], queues, now) && (forall i :: 0 <= i < c.id ==> !Ready(jobs[i], queues, now))
        && var was := jobs[c.id];
           && c.queue == was.queue && c.payload == was.payload && c.attempts == was.attempts + 1
           && |after| == |jobs| && (forall i :: 0 <= i < |jobs| && i != c.id ==> after[i] == jobs[i])
           && after[c.id] == Job(was.queue, was.payload, Processing, was.availableAt, was.attempts + 1, Some(now + leaseMs))
  {
    forall i | 0 <= i < |jobs| ensures Ready(jobs[i], queues, now) <==> Claimable(jobs[i], queues, now) {
    }
  }

  /** A batch takes the first ready jobs in order of their ids: no more than the limit, and fewer only if there are no more. */
  lemma {:induction false} BatchTakesFirstReady(jobs: seq<Job>, queues: set<string>, now: int, from: nat, limit: nat)
    requires from <= |jobs|
    ensures var ids := Candidates(jobs, queues, now, from, limit);
      && |ids| <= limit && (forall i, j :: 0 <= i < j < |ids| ==> ids[i] < ids[j])
      && (forall id :: id in ids ==> from <= id < |jobs| && Ready(jobs[id], queues, now))
      && (forall id :: from <= id < |jobs| && Ready(jobs[id], queues, now) && id !in ids ==>
            |ids| == limit && forall i :: 0 <= i < |ids| ==> ids[i] < id)
    decreases |jobs| - from
  {
    if limit > 0 && from < |jobs| {
      if Claimable(jobs[from], queues, now) {
        BatchTakesFirstReady(jobs, queues, now, from + 1, limit - 1);
      } else {
        BatchTakesFirstReady(jobs, queues, now, from + 1, limit);
      }
    }
  }

  // ----- finishing and failing -----

  function Complete(jobs: seq<Job>, id: nat): (after: seq<Job>)
    ensures |after| == |jobs|
  {
    if id < |jobs| then jobs[id := jobs[id].(status := Completed, leaseExpiresAt := None)] else jobs
  }

  function MarkFailure(jobs: seq<Job>, id: nat, status: Status, availableAt: int): (after: seq<Job>)
    ensures |after| == |jobs|
  {
    if id < |jobs| then jobs[id := jobs[id].(status := status, availableAt := availableAt, leaseExpiresAt := None)]
    else jobs
  }

  function Enqueue(jobs: seq<Job>, queue: string, payload: Json, delayMs: int, now: int): seq<Job> {
    jobs + [Job(queue, payload, Pending, now + Max(0, delayMs), 0, None)]
  }

  /** The workers of an engine, each with the name of its dead-letter queue, and the retry settings. */
  datatype Settings = Settings(dlqs: map<string, Option<string>>, maxAttempts: int, retryDelayMs: int, leaseMs: int)

  function Envelope(job: Claimed, error: string, failedAt: string): Json {
    Obj(map["attempts" := Num(job.attempts as real), "error" := Str(error), "failedAt" := Str(failedAt),
            "payload" := job.payload, "queue" := Str(job.queue)])
  }

  /** Whoever works off the dead-letter queue finds there all that was known of the failed job. */
  lemma EnvelopeHolds(job: Claimed, error: string, failedAt: string)
    ensures var e := Envelope(job, error, failedAt);
      && e.Obj? && e.fields.Keys == {"attempts", "error", "failedAt", "payload", "queue"}
      && e.fields["payload"] == job.payload && e.fields["queue"] == Str(job.queue)
      && e.fields["attempts"] == Num(job.attempts as real)
      && e.fields["error"] == Str(error) && e.fields["failedAt"] == Str(failedAt)
  {
  }

  function DlqOf(settings: Settings, queue: string): Option<string> {
    if queue in settings.dlqs then settings.dlqs[queue] else None
  }

  predicate ShouldDlq(settings: Settings, job: Claimed) {
    DlqOf(settings, job.queue).Some? && job.attempts >= settings.maxAttempts
  }

  function NextStatus(settings: Settings, job: Claimed): Status {
    if ShouldDlq(settings, job) then Dlq else if job.attempts >= settings.maxAttempts then Failed else Pending
  }

  /** The first half of reporting a failure: the envelope, if it is due. */
  function SendEnvelope(settings: Settings, jobs: seq<Job>, job: Claimed, error: string, failedAt: string, now: int)
    : seq<Job>
  {
    if ShouldDlq(settings, job)
    then Enqueue(jobs, DlqOf(settings, job.queue).value, Envelope(job, error, failedAt), 0, now)
    else jobs
  }

  /** The second half: the status of the job itself. */
  function MarkFailed(settings: Settings, jobs: seq<Job>, job: Claimed, now: int): (after: seq<Job>)
    ensures |after| == |jobs|
  {
    MarkFailure(jobs, job.id, NextStatus(settings, job), now + settings.retryDelayMs)
  }

  /**
   What reporting a failure does. Short of the last attempt the job is pending again after the retry delay. After it
   the job has failed, or is in the dead-letter state, its envelope pending in the queue's dead-letter queue at once.
   */
  lemma FailureExactly(settings: Settings, jobs: seq<Job>, job: Claimed, error: string, failedAt: string, now1: int, now2: int)
    requires job.id < |jobs|
    ensures var after := MarkFailed(settings, SendEnvelope(settings, jobs, job, error, failedAt, now1), job, now2);
      var dlq := if job.queue in settings.dlqs then settings.dlqs[job.queue] else None;
      var last := job.attempts >= settings.maxAttempts;
      var was := jobs[job.id];
      && (forall i :: 0 <= i < |jobs| && i != job.id ==> after[i] == jobs[i])
      && after[job.id] == Job(was.queue, was.payload, if !last then Pending else if dlq.None? then Failed else Dlq,
                              now2 + settings.retryDelayMs, was.attempts, None)
      && (if last && dlq.Some?
          then after[|jobs|..] == [Job(dlq.value, Envelope(job, error, failedAt), Pending, now1, 0, None)]
          else |after| == |jobs|)
  {
  }

  /** Completing a job settles it, and no other. */
  lemma CompleteExactly(jobs: seq<Job>, id: nat)
    requires id < |jobs|
    ensures var after := Complete(jobs, id);
      && (forall i :: 0 <= i < |jobs| && i != id ==> after[i] == jobs[i])
      && after[id] == Job(jobs[id].queue, jobs[id].payload, Completed, jobs[id].availableAt, jobs[id].attempts, None)
  {
  }

  /** The adapter and the part of the engine that reports failures. */
  class Queue {
    var jobs: seq<Job>

    constructor ()
      ensures jobs == []
    {
      jobs := [];
    }

    method QueueEnqueue(name: string, payload: Json, delayMs: int, now: int)
      modifies this
      ensures jobs == Enqueue(old(jobs), name, payload, delayMs, now)
    {
      var availableAt := now + Max(0, delayMs);
      jobs := jobs + [Job(name, payload, Pending, availableAt, 0, None)];
    }

    method ClaimNextQueueJob(leaseMs: int, queues: set<string>, now: int) returns (claimed: Option<Claimed>)
      modifies this
      ensures ClaimOne(old(jobs), queues, now, leaseMs) == (claimed, jobs)
    {
      if queues == {} { return None; }
      var id := NextClaimable(jobs, queues, now, 0);
      if id == |jobs| { return None; }
      var job := jobs[id];
      jobs := jobs[id :=
        job.(status := Processing, attempts := job.attempts + 1, leaseExpiresAt := Some(now + leaseMs))];
      return Some(Record(id, jobs[id]));
    }

    method ClaimNextQueueJobs(leaseMs: int, limit: int, queues: set<string>, now: int) returns (claimed: seq<Claimed>)
      modifies this
      ensures ClaimBatch(old(jobs), queues, now, leaseMs, Max(1, limit)) == (claimed, jobs)
    {
      var batchSize := Max(1, limit);
      var ids := Candidates(jobs, queues, now, 0, batchSize);
      if queues == {} {
        NextIsFirst(jobs, queues, now, 0, batchSize);
        assert ids == [] && TakeAll(jobs, ids, now + leaseMs) == jobs && Records(jobs, ids) == [];
        return [];
      }
      jobs := TakeAll(jobs, ids, now + leaseMs);
      return Records(jobs, ids);
    }

    method CompleteQueueJob(id: nat)
      modifies this
      ensures jobs == Complete(old(jobs), id)
    {
      if id < |jobs| { jobs := jobs[id := jobs[id].(status := Completed, leaseExpiresAt := None)]; }
    }

    method MarkQueueJobFailure(id: nat, status: Status, availableAt: int)
      modifies this
      ensures jobs == MarkFailure(old(jobs), id, status, availableAt)
    {
      if id < |jobs| {
        jobs := jobs[id := jobs[id].(status := status, availableAt := availableAt, leaseExpiresAt := None)];
      }
    }

    /** The envelope holds the payload of the row. `now1` and `now2` are the clock at the envelope and at the mark. */
    method FailQueueJob(settings: Settings, job: Claimed, error: string, failedAt: string, now1: int, now2: int)
      modifies this
      ensures jobs == if job.id >= |old(jobs)| then old(jobs) else
        var failed := job.(payload := old(jobs)[job.id].payload);
        MarkFailed(settings, SendEnvelope(settings, old(jobs), failed, error, failedAt, now1), failed, now2)
    {
      var dlqName := DlqOf(settings, job.queue);
      var shouldDlq := dlqName.Some? && job.attempts >= settings.maxAttempts;
      if shouldDlq && job.id < |jobs| {
        var payload := jobs[job.id].payload;
        QueueEnqueue(dlqName.value, Envelope(job.(payload := payload), error, failedAt), 0, now1);
      }
      var nextStatus := if shouldDlq then Dlq else if job.attempts >= settings.maxAttempts then Failed else Pending;
      MarkQueueJobFailure(job.id, nextStatus, now2 + settings.retryDelayMs);
    }
  }
}

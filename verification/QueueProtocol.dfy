/**
 Retries and the dead-letter queue, for any number of workers. Finishing and failing address a job by
 its id alone, so all of this rests on workers reporting before their own lease ends.
 */
module QueueProtocol {
  import opened Wrappers
  import opened Json
  import opened QueueTable

  /** A failure is reported in two statements; between them a worker is `Reporting`. */
  datatype Phase = Running | Reporting

  datatype Holding = Holding(job: Claimed, expires: int, phase: Phase)

  /**
   `envelopes` remembers which row is whose latest envelope, `stale` which rows are earlier ones and whose, `cut`
   the jobs whose due report was cut off between its two statements, and `lapses` how often each job was taken
   from a worker.
   */
  datatype State = State(
    jobs: seq<Job>, held: map<nat, Holding>, now: int, envelopes: map<nat, nat>, stale: map<nat, nat>, cut: set<nat>,
    lapses: seq<nat>)

  datatype Action =
    | Send(queue: string, payload: Json, delayMs: int)
    | Claim(worker: nat)
    | Finish(worker: nat)
    | Fail(worker: nat, error: string, failedAt: string)
    | Mark(worker: nat)
    | Crash(worker: nat)
    | Tick(to: int)

  function Without(held: map<nat, Holding>, worker: nat): map<nat, Holding> {
    map w | w in held && w != worker :: held[w]
  }

  /** Worker `w` has sent the envelope of its job and has still to mark it. */
  predicate DueReport(settings: Settings, s: State, w: nat) {
    w in s.held && s.held[w].phase.Reporting? && ShouldDlq(settings, s.held[w].job)
  }

  /** Actions that are not possible change nothing. */
  function Apply(settings: Settings, s: State, a: Action): State {
    match a
    case Send(queue, payload, delayMs) =>
      s.(jobs := Enqueue(s.jobs, queue, payload, delayMs, s.now), lapses := s.lapses + [0])
    case Claim(w) =>
      if w in s.held then s else ClaimBy(settings, s, w)
    case Finish(w) =>
      if w in s.held && s.held[w].phase.Running?
      then s.(jobs := Complete(s.jobs, s.held[w].job.id), held := Without(s.held, w))
      else s
    case Fail(w, error, failedAt) =>
      if w in s.held && s.held[w].phase.Running? then FailBy(settings, s, w, error, failedAt) else s
    case Mark(w) =>
      if w in s.held && s.held[w].phase.Reporting?
      then s.(jobs := MarkFailed(settings, s.jobs, s.held[w].job, s.now), held := Without(s.held, w))
      else s
    case Crash(w) =>
      s.(held := Without(s.held, w), cut := if DueReport(settings, s, w) then s.cut + {s.held[w].job.id} else s.cut)
    case Tick(to) => s.(now := Max(s.now, to))
  }

  function ClaimBy(settings: Settings, s: State, w: nat): State {
    var (one, jobs) := ClaimOne(s.jobs, settings.dlqs.Keys, s.now, settings.leaseMs);
    match one
    case None => s
    case Some(job) =>
      s.(jobs := jobs, held := s.held[w := Holding(job, s.now + settings.leaseMs, Running)],
         lapses := if job.id < |s.jobs| && job.id < |s.lapses| && s.jobs[job.id].status.Processing?
                   then s.lapses[job.id := s.lapses[job.id] + 1] else s.lapses)
  }

  function FailBy(settings: Settings, s: State, w: nat, error: string, failedAt: string): State
    requires w in s.held
  {
    var job := s.held[w].job;
    var jobs := SendEnvelope(settings, s.jobs, job, error, failedAt, s.now);
    var held := s.held[w := s.held[w].(phase := Reporting)];
    if ShouldDlq(settings, job)
    then
      s.(jobs := jobs, held := held, envelopes := s.envelopes[job.id := |s.jobs|], lapses := s.lapses + [0],
         stale := if job.id in s.envelopes then s.stale[s.envelopes[job.id] := job.id] else s.stale)
    else s.(jobs := jobs, held := held)
  }

  /** A worker reports before its lease ends, unless it crashes. */
  ghost predicate Timely(s: State, a: Action) {
    match a
    case Finish(w) => w in s.held ==> s.now < s.held[w].expires
    case Fail(w, _, _) => w in s.held ==> s.now < s.held[w].expires
    case Mark(w) => w in s.held ==> s.now < s.held[w].expires
    case Tick(to) => forall w :: w in s.held && s.held[w].phase.Reporting? ==> to < s.held[w].expires
    case _ => true
  }

  // ----- what every timely run keeps -----

  predicate Terminal(status: Status) {
    status.Completed? || status.Failed? || status.Dlq?
  }

  /** Holders know their job, and while its lease lasts the row is theirs. */
  ghost predicate HolderOk(s: State, w: nat)
    requires w in s.held
  {
    var h := s.held[w];
    && h.job.id < |s.jobs|
    && h.job.queue == s.jobs[h.job.id].queue && h.job.payload == s.jobs[h.job.id].payload
    && (h.phase.Reporting? ==> s.now < h.expires)
    && (s.now < h.expires ==>
          var row := s.jobs[h.job.id];
          row.status.Processing? && row.leaseExpiresAt == Some(h.expires) && row.attempts == h.job.attempts)
  }

  predicate Live(s: State, w: nat) {
    w in s.held && s.now < s.held[w].expires
  }

  /** No two workers hold a job at once. */
  ghost predicate Exclusive(s: State) {
    forall v, w :: Live(s, v) && Live(s, w) && v != w ==> s.held[v].job.id != s.held[w].job.id
  }

  predicate AttemptsOk(settings: Settings, job: Job, lapses: nat) {
    && job.attempts <= Max(1, settings.maxAttempts) + lapses
    && (job.status.Pending? ==> job.attempts == 0 || job.attempts < settings.maxAttempts)
    && (job.status.Processing? ==> job.attempts >= 1 && job.leaseExpiresAt.Some?)
    && (job.status.Failed? ==> job.attempts >= settings.maxAttempts && DlqOf(settings, job.queue).None?)
    && (job.status.Dlq? ==> job.attempts >= settings.maxAttempts && DlqOf(settings, job.queue).Some?)
  }

  /** Worker `w` is between the envelope of job `id` and its mark. */
  predicate Reports(settings: Settings, s: State, w: nat, id: nat) {
    DueReport(settings, s, w) && s.held[w].job.id == id
  }

  ghost predicate Reported(settings: Settings, s: State, id: nat) {
    exists w :: Reports(settings, s, w, id)
  }

  /** In the dead-letter queue of the job's own queue, with the job's own payload and attempt count. */
  ghost predicate IsEnvelopeOf(settings: Settings, row: Job, id: nat, job: Job) {
    && DlqOf(settings, job.queue) == Some(row.queue)
    && var failed := Claimed(id, job.queue, job.payload, job.attempts);
       exists error, failedAt :: row.payload == Envelope(failed, error, failedAt)
  }

  /** The same, but for an attempt count that may be an earlier one. */
  ghost predicate WasEnvelopeOf(settings: Settings, row: Job, id: nat, job: Job) {
    && DlqOf(settings, job.queue) == Some(row.queue)
    && exists attempts, error, failedAt ::
         row.payload == Envelope(Claimed(id, job.queue, job.payload, attempts), error, failedAt)
  }

  /** A job in the dead-letter state, or about to be. */
  ghost predicate Due(settings: Settings, s: State, id: nat) {
    id < |s.jobs| && (s.jobs[id].status.Dlq? || Reported(settings, s, id))
  }

  /** The latest envelope of a job is one, and up to date if the job is due. */
  ghost predicate EnvelopeOk(settings: Settings, s: State, x: nat) {
    && x in s.envelopes && x < |s.jobs| && s.envelopes[x] < |s.jobs|
    && WasEnvelopeOf(settings, s.jobs[s.envelopes[x]], x, s.jobs[x])
    && (Due(settings, s, x) ==> IsEnvelopeOf(settings, s.jobs[s.envelopes[x]], x, s.jobs[x]))
  }

  /** Exactly the jobs that are due, or whose report was cut off, have an envelope; each its own. */
  ghost predicate EnvelopesOk(settings: Settings, s: State) {
    && (forall id :: id in s.envelopes <==> Due(settings, s, id) || id in s.cut)
    && (forall id :: id in s.envelopes ==> EnvelopeOk(settings, s, id))
    && (forall id :: id in s.cut ==> s.jobs[id].attempts >= settings.maxAttempts)
  }

  /** Earlier envelopes belong to jobs whose report was cut off, and no row is the envelope of two jobs. */
  ghost predicate StaleOk(settings: Settings, s: State) {
    && (forall row :: row in s.stale ==> row < |s.jobs| && s.stale[row] in s.cut && s.stale[row] < |s.jobs|)
    && (forall row :: row in s.stale ==> WasEnvelopeOf(settings, s.jobs[row], s.stale[row], s.jobs[s.stale[row]]))
    && (forall id :: id in s.envelopes ==> s.envelopes[id] !in s.stale)
    && (forall a, b :: a in s.envelopes && b in s.envelopes && a != b ==> s.envelopes[a] != s.envelopes[b])
  }

  ghost predicate HoldersOk(s: State) {
    forall w :: w in s.held ==> HolderOk(s, w)
  }

  ghost predicate CountsOk(settings: Settings, s: State) {
    |s.lapses| == |s.jobs| && forall id :: 0 <= id < |s.jobs| ==> AttemptsOk(settings, s.jobs[id], s.lapses[id])
  }

  ghost predicate Inv(settings: Settings, s: State) {
    HoldersOk(s) && Exclusive(s) && CountsOk(settings, s) && EnvelopesOk(settings, s) && StaleOk(settings, s)
  }

  // ----- each action keeps it -----

  /** Rows never change their queue or payload. */
  ghost predicate SameRows(s: State, t: State) {
    |s.jobs| <= |t.jobs|
    && forall id :: 0 <= id < |s.jobs| ==>
         s.jobs[id].queue == t.jobs[id].queue && s.jobs[id].payload == t.jobs[id].payload
  }

  ghost predicate SameReports(s: State, t: State) {
    && (forall w :: w in s.held && s.held[w].phase.Reporting? ==> w in t.held && t.held[w] == s.held[w])
    && (forall w :: w in t.held && t.held[w].phase.Reporting? ==> w in s.held && t.held[w] == s.held[w])
  }

  lemma ReportsFrame(settings: Settings, s: State, t: State, id: nat)
    requires SameReports(s, t)
    ensures Reported(settings, s, id) <==> Reported(settings, t, id)
  {
    if Reported(settings, s, id) {
      var w :| Reports(settings, s, w, id);
      assert Reports(settings, t, w, id);
    }
    if Reported(settings, t, id) {
      var w :| Reports(settings, t, w, id);
      assert Reports(settings, s, w, id);
    }
  }

  ghost predicate SameEnvelopes(s: State, t: State) {
    t.envelopes == s.envelopes && t.stale == s.stale && s.cut <= t.cut
  }

  /** Nothing about envelopes changes as long as the same jobs are due or cut off, with the same attempts if they are due. */
  lemma EnvelopesFrame(settings: Settings, s: State, t: State)
    requires EnvelopesOk(settings, s) && StaleOk(settings, s) && SameRows(s, t) && SameEnvelopes(s, t)
    requires forall id :: Due(settings, t, id) || id in t.cut <==> Due(settings, s, id) || id in s.cut
    requires forall id: nat :: id < |s.jobs| && Due(settings, t, id) ==>
      Due(settings, s, id) && t.jobs[id].attempts == s.jobs[id].attempts
    requires forall id: nat :: id < |s.jobs| ==> t.jobs[id].attempts >= s.jobs[id].attempts
    requires forall id :: id in t.cut && id !in s.cut ==> id < |t.jobs| && t.jobs[id].attempts >= settings.maxAttempts
    ensures EnvelopesOk(settings, t) && StaleOk(settings, t)
  {
    hide Due;
    hide IsEnvelopeOf;
    hide WasEnvelopeOf;
    StaleFrame(settings, s, t);
    hide StaleOk;
    forall id | id in t.envelopes ensures EnvelopeOk(settings, t, id) {
      assert EnvelopeOk(settings, s, id);
      EnvelopeStays(settings, s, t, s.envelopes[id], id);
    }
  }

  lemma StaleFrame(settings: Settings, s: State, t: State)
    requires StaleOk(settings, s) && SameRows(s, t) && SameEnvelopes(s, t)
    ensures StaleOk(settings, t)
  {
    hide WasEnvelopeOf;
    hide IsEnvelopeOf;
    forall row | row in t.stale ensures WasEnvelopeOf(settings, t.jobs[row], t.stale[row], t.jobs[t.stale[row]]) {
      EnvelopeStays(settings, s, t, row, s.stale[row]);
    }
  }

  lemma EnvelopeStays(settings: Settings, s: State, t: State, row: nat, id: nat)
    requires SameRows(s, t) && row < |s.jobs| && id < |s.jobs|
    ensures WasEnvelopeOf(settings, s.jobs[row], id, s.jobs[id]) ==> WasEnvelopeOf(settings, t.jobs[row], id, t.jobs[id])
    ensures IsEnvelopeOf(settings, s.jobs[row], id, s.jobs[id]) && t.jobs[id].attempts == s.jobs[id].attempts ==>
      IsEnvelopeOf(settings, t.jobs[row], id, t.jobs[id])
  {
  }

  lemma ReportersHoldRows(settings: Settings, s: State, id: nat)
    requires HoldersOk(s) && Reported(settings, s, id)
    ensures id < |s.jobs| && s.jobs[id].status.Processing?
    ensures s.jobs[id].leaseExpiresAt.Some? && s.now < s.jobs[id].leaseExpiresAt.value
  {
    var w :| Reports(settings, s, w, id);
    assert HolderOk(s, w);
  }

  lemma SendKeeps(settings: Settings, s: State, queue: string, payload: Json, delayMs: int)
    requires Inv(settings, s)
    ensures Inv(settings, Apply(settings, s, Send(queue, payload, delayMs)))
  {
    hide EnvelopesOk;
    hide StaleOk;
    var t := Apply(settings, s, Send(queue, payload, delayMs));
    forall w | w in t.held ensures HolderOk(t, w) { assert HolderOk(s, w); }
    assert forall w :: Live(t, w) <==> Live(s, w);
    forall id ensures Due(settings, s, id) <==> Due(settings, t, id) {
      ReportsFrame(settings, s, t, id);
      if Reported(settings, s, id) { ReportersHoldRows(settings, s, id); }
    }
    EnvelopesFrame(settings, s, t);
  }

  /** Only one row changes, and every live holder of another row stays. */
  lemma HoldersFrame(s: State, t: State, id: nat)
    requires HoldersOk(s) && SameRows(s, t) && s.now == t.now
    requires forall i :: 0 <= i < |s.jobs| && i != id ==> t.jobs[i] == s.jobs[i]
    requires forall v :: v in t.held ==>
      HolderOk(t, v) || (v in s.held && t.held[v] == s.held[v] && (Live(s, v) ==> s.held[v].job.id != id))
    ensures HoldersOk(t)
  {
    forall v | v in t.held ensures HolderOk(t, v) {
      if v in s.held && t.held[v] == s.held[v] && (Live(s, v) ==> s.held[v].job.id != id) { assert HolderOk(s, v); }
    }
  }

  /** Holders stay, but for `w`, whose job no one else holds. */
  lemma ExclusiveFrame(s: State, t: State, w: nat)
    requires Exclusive(s) && forall v :: v != w && Live(t, v) ==> Live(s, v) && t.held[v].job.id == s.held[v].job.id
    requires Live(t, w) ==> forall v :: v != w && Live(s, v) ==> s.held[v].job.id != t.held[w].job.id
    ensures Exclusive(t)
  {
  }

  lemma ExclusiveAt(s: State, w: nat)
    requires Exclusive(s) && Live(s, w)
    ensures forall v :: v != w && Live(s, v) ==> s.held[v].job.id != s.held[w].job.id
  {
  }

  lemma CountsFrame(settings: Settings, s: State, t: State, id: nat)
    requires CountsOk(settings, s) && id < |s.jobs| == |t.jobs| == |t.lapses|
    requires forall i :: 0 <= i < |s.jobs| && i != id ==> t.jobs[i] == s.jobs[i] && t.lapses[i] == s.lapses[i]
    requires AttemptsOk(settings, t.jobs[id], t.lapses[id])
    ensures CountsOk(settings, t)
  {
  }

  lemma ClaimCounts(settings: Settings, s: State, w: nat)
    requires CountsOk(settings, s)
    ensures CountsOk(settings, ClaimBy(settings, s, w))
  {
    var id := NextClaimable(s.jobs, settings.dlqs.Keys, s.now, 0);
    if id < |s.jobs| { CountsFrame(settings, s, ClaimBy(settings, s, w), id); }
  }

  /** What a live worker holds cannot be claimed. */
  lemma NotHeld(s: State, v: nat, queues: set<string>, id: nat)
    requires HoldersOk(s) && Live(s, v) && id < |s.jobs| && Claimable(s.jobs[id], queues, s.now)
    ensures s.held[v].job.id != id
  {
    assert HolderOk(s, v);
  }

  lemma ClaimKeeps(settings: Settings, s: State, w: nat)
    requires Inv(settings, s) && w !in s.held
    ensures Inv(settings, ClaimBy(settings, s, w))
  {
    hide EnvelopesOk;
    hide StaleOk;
    hide CountsOk;
    hide Exclusive;
    var id := NextClaimable(s.jobs, settings.dlqs.Keys, s.now, 0);
    if id < |s.jobs| {
      var t := ClaimBy(settings, s, w);
      assert t.jobs == s.jobs[id := Take(s.jobs[id], s.now + settings.leaseMs)];
      forall v | Live(s, v) ensures s.held[v].job.id != id { NotHeld(s, v, settings.dlqs.Keys, id); }
      assert forall v :: v != w ==> (Live(t, v) <==> Live(s, v));
      ExclusiveFrame(s, t, w);
      assert HolderOk(t, w);
      hide HolderOk;
      HoldersFrame(s, t, id);
      ClaimEnvelopes(settings, s, t, id);
      ClaimCounts(settings, s, w);
    }
  }

  lemma ClaimEnvelopes(settings: Settings, s: State, t: State, id: nat)
    requires EnvelopesOk(settings, s) && StaleOk(settings, s) && SameEnvelopes(s, t) && t.cut == s.cut
    requires HoldersOk(s) && id < |s.jobs| && Claimable(s.jobs[id], settings.dlqs.Keys, s.now) && SameReports(s, t)
    requires t.jobs == s.jobs[id := Take(s.jobs[id], s.now + settings.leaseMs)]
    ensures EnvelopesOk(settings, t) && StaleOk(settings, t)
  {
    ClaimDue(settings, s, t, id);
    EnvelopesFrame(settings, s, t);
  }

  lemma ClaimDue(settings: Settings, s: State, t: State, id: nat)
    requires HoldersOk(s) && id < |s.jobs| && Claimable(s.jobs[id], settings.dlqs.Keys, s.now) && SameReports(s, t)
    requires t.jobs == s.jobs[id := Take(s.jobs[id], s.now + settings.leaseMs)]
    ensures !Due(settings, s, id) && forall x :: Due(settings, s, x) <==> Due(settings, t, x)
  {
    if Reported(settings, s, id) { ReportersHoldRows(settings, s, id); }
    forall x ensures Due(settings, s, x) <==> Due(settings, t, x) {
      ReportsFrame(settings, s, t, x);
    }
  }

  lemma FinishCounts(settings: Settings, s: State, w: nat)
    requires CountsOk(settings, s) && w in s.held && s.held[w].job.id < |s.jobs|
    ensures CountsOk(settings, Apply(settings, s, Finish(w)))
  {
    var id := s.held[w].job.id;
    assert AttemptsOk(settings, s.jobs[id], s.lapses[id]);
  }

  lemma FinishKeeps(settings: Settings, s: State, w: nat)
    requires Inv(settings, s) && Live(s, w) && s.held[w].phase.Running?
    ensures Inv(settings, Apply(settings, s, Finish(w)))
  {
    hide EnvelopesOk;
    hide StaleOk;
    hide CountsOk;
    hide Exclusive;
    var t := Apply(settings, s, Finish(w));
    var id := s.held[w].job.id;
    assert HolderOk(s, w);
    assert forall v :: Live(t, v) ==> Live(s, v);
    ExclusiveAt(s, w);
    ExclusiveFrame(s, t, w);
    HoldersFrame(s, t, id);
    FinishCounts(settings, s, w);
    FinishEnvelopes(settings, s, w);
  }

  lemma FinishEnvelopes(settings: Settings, s: State, w: nat)
    requires Inv(settings, s) && Live(s, w) && s.held[w].phase.Running?
    ensures EnvelopesOk(settings, Apply(settings, s, Finish(w))) && StaleOk(settings, Apply(settings, s, Finish(w)))
  {
    hide Exclusive;
    hide CountsOk;
    hide EnvelopesOk;
    hide StaleOk;
    var t := Apply(settings, s, Finish(w));
    assert HolderOk(s, w);
    forall x ensures Due(settings, s, x) <==> Due(settings, t, x) {
      ReportsFrame(settings, s, t, x);
    }
    EnvelopesFrame(settings, s, t);
  }

  lemma CrashKeeps(settings: Settings, s: State, w: nat)
    requires Inv(settings, s)
    ensures Inv(settings, Apply(settings, s, Crash(w)))
  {
    hide EnvelopesOk;
    hide StaleOk;
    var t := Apply(settings, s, Crash(w));
    forall v | v in t.held ensures HolderOk(t, v) { assert HolderOk(s, v); }
    assert forall v :: Live(t, v) ==> Live(s, v);
    CrashEnvelopes(settings, s, w);
  }

  /** A job whose due report is cut off was due, and has used up its attempts. */
  lemma CrashEnvelopes(settings: Settings, s: State, w: nat)
    requires Inv(settings, s)
    ensures var t := Apply(settings, s, Crash(w)); EnvelopesOk(settings, t) && StaleOk(settings, t)
  {
    hide Exclusive;
    hide CountsOk;
    hide EnvelopesOk;
    hide StaleOk;
    var t := Apply(settings, s, Crash(w));
    if DueReport(settings, s, w) {
      assert HolderOk(s, w);
      assert Reports(settings, s, w, s.held[w].job.id);
    }
    forall x
      ensures Due(settings, t, x) ==> Due(settings, s, x)
      ensures Due(settings, t, x) || x in t.cut <==> Due(settings, s, x) || x in s.cut
    {
      CrashDue(settings, s, w, x);
    }
    EnvelopesFrame(settings, s, t);
  }

  lemma CrashDue(settings: Settings, s: State, w: nat, x: nat)
    requires HoldersOk(s)
    ensures var t := Apply(settings, s, Crash(w));
      && (Due(settings, t, x) ==> Due(settings, s, x))
      && (Due(settings, t, x) || x in t.cut <==> Due(settings, s, x) || x in s.cut)
  {
    var t := Apply(settings, s, Crash(w));
    if Reported(settings, t, x) {
      var v :| Reports(settings, t, v, x);
      assert Reports(settings, s, v, x);
    }
    if Reported(settings, s, x) {
      var v :| Reports(settings, s, v, x);
      assert v == w || Reports(settings, t, v, x);
    }
    if DueReport(settings, s, w) {
      assert HolderOk(s, w);
      assert Reports(settings, s, w, s.held[w].job.id);
    }
  }

  lemma TickKeeps(settings: Settings, s: State, to: int)
    requires Inv(settings, s) && Timely(s, Tick(to))
    ensures Inv(settings, Apply(settings, s, Tick(to)))
  {
    hide EnvelopesOk;
    hide StaleOk;
    var t := Apply(settings, s, Tick(to));
    forall v | v in t.held ensures HolderOk(t, v) { assert HolderOk(s, v); }
    assert forall v :: Live(t, v) ==> Live(s, v);
    forall x ensures Due(settings, s, x) <==> Due(settings, t, x) {
      ReportsFrame(settings, s, t, x);
    }
    EnvelopesFrame(settings, s, t);
  }

  lemma FailCounts(settings: Settings, s: State, w: nat, error: string, failedAt: string)
    requires CountsOk(settings, s) && w in s.held
    ensures CountsOk(settings, FailBy(settings, s, w, error, failedAt))
  {
  }

  lemma FailKeeps(settings: Settings, s: State, w: nat, error: string, failedAt: string)
    requires Inv(settings, s) && Live(s, w) && s.held[w].phase.Running?
    ensures Inv(settings, FailBy(settings, s, w, error, failedAt))
  {
    hide EnvelopesOk;
    hide StaleOk;
    hide Exclusive;
    hide CountsOk;
    var t := FailBy(settings, s, w, error, failedAt);
    assert HolderOk(s, w);
    forall v | v in t.held ensures HolderOk(t, v) { assert HolderOk(s, v); }
    assert forall v :: Live(t, v) <==> Live(s, v);
    ExclusiveAt(s, w);
    ExclusiveFrame(s, t, w);
    FailCounts(settings, s, w, error, failedAt);
    FailEnvelopes(settings, s, w, error, failedAt);
  }

  lemma FailDue(settings: Settings, s: State, w: nat, error: string, failedAt: string, x: nat)
    requires Inv(settings, s) && Live(s, w) && s.held[w].phase.Running?
    ensures var job := s.held[w].job;
      var t := FailBy(settings, s, w, error, failedAt);
      Due(settings, t, x) <==> Due(settings, s, x) || (x == job.id && ShouldDlq(settings, job))
  {
    hide CountsOk;
    hide Exclusive;
    hide EnvelopesOk;
    hide StaleOk;
    var t := FailBy(settings, s, w, error, failedAt);
    assert HolderOk(s, w);
    if Reported(settings, s, x) {
      ReportersHoldRows(settings, s, x);
      var v :| Reports(settings, s, v, x);
      assert Reports(settings, t, v, x);
    }
    if Reported(settings, t, x) {
      var v :| Reports(settings, t, v, x);
      assert v == w || Reports(settings, s, v, x);
    }
    if x == s.held[w].job.id && ShouldDlq(settings, s.held[w].job) {
      assert Reports(settings, t, w, x);
    }
  }

  /** A running worker's job is not due, so it has an envelope only if an earlier report of it was cut off. */
  lemma NewEnvelope(settings: Settings, s: State, w: nat)
    requires Inv(settings, s) && Live(s, w) && s.held[w].phase.Running?
    ensures !Due(settings, s, s.held[w].job.id)
    ensures s.held[w].job.id in s.envelopes <==> s.held[w].job.id in s.cut
  {
    hide StaleOk;
    assert HolderOk(s, w);
    var id := s.held[w].job.id;
    assert forall v :: Reports(settings, s, v, id) ==> HolderOk(s, v) && Live(s, v);
  }

  lemma FailEnvelopes(settings: Settings, s: State, w: nat, error: string, failedAt: string)
    requires Inv(settings, s) && Live(s, w) && s.held[w].phase.Running?
    ensures var t := FailBy(settings, s, w, error, failedAt); EnvelopesOk(settings, t) && StaleOk(settings, t)
  {
    hide CountsOk;
    hide Exclusive;
    hide Due;
    var t := FailBy(settings, s, w, error, failedAt);
    var job := s.held[w].job;
    assert HolderOk(s, w);
    forall x ensures Due(settings, t, x) <==> Due(settings, s, x) || (x == job.id && ShouldDlq(settings, job)) {
      FailDue(settings, s, w, error, failedAt, x);
    }
    NewEnvelope(settings, s, w);
    if ShouldDlq(settings, job) {
      assert t.jobs[|s.jobs|].payload == Envelope(job, error, failedAt);
      EnvelopeAdded(settings, s, t, job.id);
    } else {
      EnvelopesFrame(settings, s, t);
    }
  }

  /** The next row is the latest envelope of job `id`, and an envelope it had before is stale. */
  predicate AddsEnvelope(s: State, t: State, id: nat) {
    && t.envelopes == s.envelopes[id := |s.jobs|]
    && t.stale == if id in s.envelopes then s.stale[s.envelopes[id] := id] else s.stale
  }

  lemma EnvelopeAdded(settings: Settings, s: State, t: State, id: nat)
    requires EnvelopesOk(settings, s) && StaleOk(settings, s) && id < |s.jobs| && AddsEnvelope(s, t, id)
    requires |t.jobs| == |s.jobs| + 1 && SameRows(s, t) && t.cut == s.cut && (id in s.envelopes ==> id in s.cut)
    requires forall i: nat :: i < |s.jobs| ==> t.jobs[i].attempts == s.jobs[i].attempts
    requires IsEnvelopeOf(settings, t.jobs[|s.jobs|], id, t.jobs[id])
    requires forall x :: Due(settings, t, x) <==> Due(settings, s, x) || x == id
    ensures EnvelopesOk(settings, t) && StaleOk(settings, t)
  {
    assert WasEnvelopeOf(settings, t.jobs[|s.jobs|], id, t.jobs[id]);
    hide Due;
    hide IsEnvelopeOf;
    hide WasEnvelopeOf;
    StaleKept(settings, s, t, id);
    hide StaleOk;
    KeysAdded(settings, s, t, id);
    hide EnvelopesOk;
    forall x | x in t.envelopes ensures EnvelopeOk(settings, t, x) {
      if x != id { LatestKept(settings, s, t, id, x); }
    }
    hide EnvelopeOk;
    EnvelopesOkFrom(settings, t);
  }

  lemma EnvelopesOkFrom(settings: Settings, s: State)
    requires forall x :: x in s.envelopes ==> EnvelopeOk(settings, s, x)
    requires forall x :: x in s.envelopes <==> Due(settings, s, x) || x in s.cut
    requires forall x :: x in s.cut ==> x < |s.jobs| && s.jobs[x].attempts >= settings.maxAttempts
    ensures EnvelopesOk(settings, s)
  {
    hide Due;
    hide IsEnvelopeOf;
    hide WasEnvelopeOf;
  }

  lemma KeysAdded(settings: Settings, s: State, t: State, id: nat)
    requires EnvelopesOk(settings, s) && id < |s.jobs| <= |t.jobs| && AddsEnvelope(s, t, id) && t.cut == s.cut
    requires forall i: nat :: i < |s.jobs| ==> t.jobs[i].attempts == s.jobs[i].attempts
    requires forall x :: Due(settings, t, x) <==> Due(settings, s, x) || x == id
    ensures forall x :: x in t.envelopes <==> Due(settings, t, x) || x in t.cut
    ensures forall x :: x in t.cut ==> x < |t.jobs| && t.jobs[x].attempts >= settings.maxAttempts
  {
    hide Due;
    hide IsEnvelopeOf;
    hide WasEnvelopeOf;
  }

  lemma LatestKept(settings: Settings, s: State, t: State, id: nat, x: nat)
    requires EnvelopesOk(settings, s) && AddsEnvelope(s, t, id) && SameRows(s, t) && x in t.envelopes && x != id
    requires forall i: nat :: i < |s.jobs| ==> t.jobs[i].attempts == s.jobs[i].attempts
    requires Due(settings, t, x) ==> Due(settings, s, x)
    ensures EnvelopeOk(settings, t, x)
  {
    hide Due;
    hide IsEnvelopeOf;
    hide WasEnvelopeOf;
    assert x in s.envelopes && t.envelopes[x] == s.envelopes[x];
    EnvelopeStays(settings, s, t, s.envelopes[x], x);
  }

  lemma StaleKept(settings: Settings, s: State, t: State, id: nat)
    requires EnvelopesOk(settings, s) && StaleOk(settings, s) && AddsEnvelope(s, t, id)
    requires |t.jobs| == |s.jobs| + 1 && SameRows(s, t) && t.cut == s.cut && (id in s.envelopes ==> id in s.cut)
    ensures StaleOk(settings, t)
  {
    hide Due;
    hide IsEnvelopeOf;
    hide WasEnvelopeOf;
    forall row | row in t.stale
      ensures row < |t.jobs| && t.stale[row] in t.cut && t.stale[row] < |t.jobs|
      ensures WasEnvelopeOf(settings, t.jobs[row], t.stale[row], t.jobs[t.stale[row]])
    {
      if row in s.stale {
        EnvelopeStays(settings, s, t, row, s.stale[row]);
      } else {
        assert EnvelopeOk(settings, s, id);
        EnvelopeStays(settings, s, t, row, id);
      }
    }
    hide EnvelopesOk;
    hide SameRows;
    StaleApart(settings, s, t, id);
  }

  lemma StaleApart(settings: Settings, s: State, t: State, id: nat)
    requires EnvelopesOk(settings, s) && StaleOk(settings, s) && AddsEnvelope(s, t, id)
    ensures forall x :: x in t.envelopes ==> t.envelopes[x] !in t.stale
    ensures forall a, b :: a in t.envelopes && b in t.envelopes && a != b ==> t.envelopes[a] != t.envelopes[b]
  {
    hide Due;
    hide IsEnvelopeOf;
    hide WasEnvelopeOf;
    assert forall x :: x in s.envelopes ==> EnvelopeOk(settings, s, x);
  }

  lemma MarkCounts(settings: Settings, s: State, w: nat)
    requires CountsOk(settings, s) && w in s.held && HolderOk(s, w) && Live(s, w)
    ensures CountsOk(settings, Apply(settings, s, Mark(w)))
  {
    var id := s.held[w].job.id;
    assert AttemptsOk(settings, s.jobs[id], s.lapses[id]);
  }

  lemma MarkKeeps(settings: Settings, s: State, w: nat)
    requires Inv(settings, s) && Live(s, w) && s.held[w].phase.Reporting?
    ensures Inv(settings, Apply(settings, s, Mark(w)))
  {
    hide EnvelopesOk;
    hide StaleOk;
    hide CountsOk;
    hide Exclusive;
    var t := Apply(settings, s, Mark(w));
    var id := s.held[w].job.id;
    assert HolderOk(s, w);
    assert forall v :: Live(t, v) ==> Live(s, v);
    ExclusiveAt(s, w);
    ExclusiveFrame(s, t, w);
    HoldersFrame(s, t, id);
    MarkCounts(settings, s, w);
    MarkEnvelopes(settings, s, w);
  }

  lemma MarkEnvelopes(settings: Settings, s: State, w: nat)
    requires Inv(settings, s) && Live(s, w) && s.held[w].phase.Reporting?
    ensures EnvelopesOk(settings, Apply(settings, s, Mark(w))) && StaleOk(settings, Apply(settings, s, Mark(w)))
  {
    hide Exclusive;
    hide CountsOk;
    hide EnvelopesOk;
    hide StaleOk;
    hide Due;
    assert HolderOk(s, w);
    var t := Apply(settings, s, Mark(w));
    forall x ensures Due(settings, s, x) <==> Due(settings, t, x) {
      MarkDue(settings, s, w, x);
    }
    EnvelopesFrame(settings, s, t);
  }

  lemma MarkDue(settings: Settings, s: State, w: nat, x: nat)
    requires Inv(settings, s) && Live(s, w) && s.held[w].phase.Reporting?
    ensures Due(settings, s, x) <==> Due(settings, Apply(settings, s, Mark(w)), x)
  {
    hide EnvelopesOk;
    hide StaleOk;
    hide CountsOk;
    var t := Apply(settings, s, Mark(w));
    var id := s.held[w].job.id;
    assert HolderOk(s, w);
    if Reported(settings, s, x) {
      var v :| Reports(settings, s, v, x);
      assert HolderOk(s, v);
      assert Live(s, v);
      assert v == w || Reports(settings, t, v, x);
    }
    if Reported(settings, t, x) {
      var v :| Reports(settings, t, v, x);
      assert Reports(settings, s, v, x);
    }
    if x == id && ShouldDlq(settings, s.held[w].job) { assert Reports(settings, s, w, id); }
  }

  // ----- over whole runs -----

  lemma StepKeeps(settings: Settings, s: State, a: Action)
    requires Inv(settings, s) && Timely(s, a)
    ensures Inv(settings, Apply(settings, s, a))
  {
    hide Inv;
    match a
    case Send(queue, payload, delayMs) => SendKeeps(settings, s, queue, payload, delayMs);
    case Claim(w) => if w !in s.held { ClaimKeeps(settings, s, w); }
    case Finish(w) => if w in s.held && s.held[w].phase.Running? { FinishKeeps(settings, s, w); }
    case Fail(w, error, failedAt) =>
      if w in s.held && s.held[w].phase.Running? { FailKeeps(settings, s, w, error, failedAt); }
    case Mark(w) => if w in s.held && s.held[w].phase.Reporting? { MarkKeeps(settings, s, w); }
    case Crash(w) => CrashKeeps(settings, s, w);
    case Tick(to) => TickKeeps(settings, s, to);
  }

  /** Finished jobs stay as they are, and no row ever changes its queue or payload. */
  ghost predicate Absorbed(s: State, t: State) {
    && SameRows(s, t)
    && forall id :: 0 <= id < |s.jobs| && Terminal(s.jobs[id].status) ==> t.jobs[id] == s.jobs[id]
  }

  lemma StepAbsorbs(settings: Settings, s: State, a: Action)
    requires Inv(settings, s) && Timely(s, a)
    ensures Absorbed(s, Apply(settings, s, a))
  {
    hide EnvelopesOk;
    hide StaleOk;
    hide CountsOk;
    hide Exclusive;
    match a
    case Finish(w) => if w in s.held { assert HolderOk(s, w); }
    case Fail(w, _, _) => if w in s.held { assert HolderOk(s, w); }
    case Mark(w) => if w in s.held { assert HolderOk(s, w); }
    case _ =>
  }

  function Run(settings: Settings, s: State, actions: seq<Action>): State
    decreases |actions|
  {
    if actions == [] then s else Run(settings, Apply(settings, s, actions[0]), actions[1..])
  }

  ghost predicate TimelyRun(settings: Settings, s: State, actions: seq<Action>)
    decreases |actions|
  {
    actions == [] || (Timely(s, actions[0]) && TimelyRun(settings, Apply(settings, s, actions[0]), actions[1..]))
  }

  lemma {:induction false} RunKeeps(settings: Settings, s: State, actions: seq<Action>)
    requires Inv(settings, s) && TimelyRun(settings, s, actions)
    ensures Inv(settings, Run(settings, s, actions)) && Absorbed(s, Run(settings, s, actions))
    decreases |actions|
  {
    hide Inv;
    hide Apply;
    hide Timely;
    if actions != [] {
      StepKeeps(settings, s, actions[0]);
      StepAbsorbs(settings, s, actions[0]);
      RunKeeps(settings, Apply(settings, s, actions[0]), actions[1..]);
    }
  }

  function Start(now: int): State {
    State([], map[], now, map[], map[], {}, [])
  }

  lemma StartInv(settings: Settings, now: int)
    ensures Inv(settings, Start(now)) && RowsSplit(Start(now), {})
  {
    assert forall id :: !Due(settings, Start(now), id);
  }

  // ----- every row is sent or an envelope -----

  /** The rows that a run's own sends append. */
  function SentRows(settings: Settings, s: State, actions: seq<Action>): set<nat>
    decreases |actions|
  {
    if actions == [] then {}
    else
      (if actions[0].Send? then {|s.jobs|} else {}) + SentRows(settings, Apply(settings, s, actions[0]), actions[1..])
  }

  function Sends(actions: seq<Action>): nat {
    if actions == [] then 0 else (if actions[0].Send? then 1 else 0) + Sends(actions[1..])
  }

  /** All rows that are envelopes, the earlier ones included. */
  function EnvelopeRows(s: State): set<nat> {
    s.envelopes.Values + s.stale.Keys
  }

  /** Each row was sent by somebody, or is an envelope, and never both. */
  ghost predicate RowsSplit(s: State, sent: set<nat>) {
    Split(|s.jobs|, EnvelopeRows(s), sent)
  }

  ghost predicate Split(rows: nat, envelopes: set<nat>, sent: set<nat>) {
    (forall row :: row in sent || row in envelopes <==> 0 <= row < rows) && sent !! envelopes
  }

  lemma SplitNext(rows: nat, envelopes: set<nat>, sent: set<nat>)
    requires Split(rows, envelopes, sent)
    ensures Split(rows + 1, envelopes + {rows}, sent) && Split(rows + 1, envelopes, sent + {rows})
  {
  }

  /** What one action does to the rows: a send adds one, a due failure adds an envelope. */
  lemma StepEnvelopes(settings: Settings, s: State, a: Action)
    ensures var t := Apply(settings, s, a);
      || (a.Send? && t.envelopes == s.envelopes && t.stale == s.stale && |t.jobs| == |s.jobs| + 1)
      || (!a.Send? && t.envelopes == s.envelopes && t.stale == s.stale && |t.jobs| == |s.jobs|)
      || (!a.Send? && |t.jobs| == |s.jobs| + 1 && exists id: nat :: AddsEnvelope(s, t, id))
  {
    match a
    case Fail(w, error, failedAt) =>
      if w in s.held && s.held[w].phase.Running? {
        assert ShouldDlq(settings, s.held[w].job) ==> AddsEnvelope(s, Apply(settings, s, a), s.held[w].job.id);
      }
    case _ =>
  }

  lemma StepSplits(settings: Settings, s: State, a: Action, sent: set<nat>)
    requires Inv(settings, s) && RowsSplit(s, sent)
    ensures var t := Apply(settings, s, a);
      && RowsSplit(t, sent + if a.Send? then {|s.jobs|} else {})
      && |t.jobs| - |t.envelopes| - |t.stale| == |s.jobs| - |s.envelopes| - |s.stale| + if a.Send? then 1 else 0
  {
    StepEnvelopes(settings, s, a);
    var t := Apply(settings, s, a);
    hide Apply;
    hide RowsSplit;
    hide AddsEnvelope;
    hide HoldersOk;
    hide Exclusive;
    hide CountsOk;
    hide EnvelopesOk;
    hide StaleOk;
    if !a.Send? && |t.jobs| == |s.jobs| + 1 {
      var id: nat :| AddsEnvelope(s, t, id);
      EnvelopeSplits(settings, s, t, id, sent);
      assert sent + {} == sent;
    } else {
      SentSplits(s, t, a.Send?, sent);
    }
  }

  lemma SentSplits(s: State, t: State, sending: bool, sent: set<nat>)
    requires RowsSplit(s, sent) && t.envelopes == s.envelopes && t.stale == s.stale
    requires |t.jobs| == |s.jobs| + if sending then 1 else 0
    ensures RowsSplit(t, sent + if sending then {|s.jobs|} else {})
  {
    hide Split;
    SplitNext(|s.jobs|, EnvelopeRows(s), sent);
    assert sent + {} == sent;
    SameRowsOfEnvelopes(s, t);
  }

  lemma EnvelopeSplits(settings: Settings, s: State, t: State, id: nat, sent: set<nat>)
    requires StaleOk(settings, s) && RowsSplit(s, sent) && |t.jobs| == |s.jobs| + 1 && AddsEnvelope(s, t, id)
    ensures RowsSplit(t, sent) && |t.envelopes| + |t.stale| == |s.envelopes| + |s.stale| + 1
  {
    hide Split;
    hide AddsEnvelope;
    hide EnvelopeRows;
    hide StaleOk;
    SplitNext(|s.jobs|, EnvelopeRows(s), sent);
    EnvelopeCounts(settings, s, t, id);
    EnvelopeRowsGrow(s, t, id);
  }

  lemma SameRowsOfEnvelopes(s: State, t: State)
    requires t.envelopes == s.envelopes && t.stale == s.stale
    ensures EnvelopeRows(t) == EnvelopeRows(s)
  {
  }

  lemma EnvelopeCounts(settings: Settings, s: State, t: State, id: nat)
    requires StaleOk(settings, s) && AddsEnvelope(s, t, id)
    ensures |t.envelopes| + |t.stale| == |s.envelopes| + |s.stale| + 1
  {
    hide WasEnvelopeOf;
    if id in s.envelopes {
      assert s.envelopes[id] !in s.stale;
      KeyAdded(s.stale, s.envelopes[id], id);
      assert t.envelopes.Keys == s.envelopes.Keys;
    } else {
      KeyAdded(s.envelopes, id, |s.jobs|);
    }
  }

  lemma KeyAdded(m: map<nat, nat>, key: nat, value: nat)
    requires key !in m
    ensures |m[key := value]| == |m| + 1
  {
    assert m[key := value].Keys == m.Keys + {key};
  }

  lemma EnvelopeRowsGrow(s: State, t: State, id: nat)
    requires AddsEnvelope(s, t, id)
    ensures EnvelopeRows(t) == EnvelopeRows(s) + {|s.jobs|}
  {
    assert t.envelopes[id] == |s.jobs|;
    forall row | row in s.envelopes.Values ensures row in EnvelopeRows(t) {
      var k :| k in s.envelopes && s.envelopes[k] == row;
      assert k in t.envelopes && (k == id || t.envelopes[k] == row);
    }
    forall row | row in t.envelopes.Values ensures row in EnvelopeRows(s) + {|s.jobs|} {
      var k :| k in t.envelopes && t.envelopes[k] == row;
      assert k == id || (k in s.envelopes && s.envelopes[k] == row);
    }
  }

  lemma {:induction false} RunSplits(settings: Settings, s: State, actions: seq<Action>, sent: set<nat>)
    requires Inv(settings, s) && TimelyRun(settings, s, actions) && RowsSplit(s, sent)
    ensures var t := Run(settings, s, actions);
      && RowsSplit(t, sent + SentRows(settings, s, actions))
      && |t.jobs| - |t.envelopes| - |t.stale| == |s.jobs| - |s.envelopes| - |s.stale| + Sends(actions)
    decreases |actions|
  {
    hide Inv;
    hide Apply;
    hide Timely;
    hide RowsSplit;
    if actions == [] {
      assert sent + {} == sent;
    } else {
      var own := if actions[0].Send? then {|s.jobs|} else {};
      StepSplits(settings, s, actions[0], sent);
      StepKeeps(settings, s, actions[0]);
      var t := Apply(settings, s, actions[0]);
      RunSplits(settings, t, actions[1..], sent + own);
      assert (sent + own) + SentRows(settings, t, actions[1..]) == sent + SentRows(settings, s, actions);
    }
  }

  // ----- no lapses when every handler ends in time -----

  /** A worker neither crashes nor lets its lease end while it holds a job. */
  ghost predicate Prompt(s: State, a: Action) {
    match a
    case Crash(w) => w !in s.held
    case Tick(to) => forall w :: w in s.held ==> to < s.held[w].expires
    case _ => true
  }

  ghost predicate PromptRun(settings: Settings, s: State, actions: seq<Action>)
    decreases |actions|
  {
    actions == [] || (Prompt(s, actions[0]) && PromptRun(settings, Apply(settings, s, actions[0]), actions[1..]))
  }

  predicate Holds(s: State, w: nat, id: nat) {
    Live(s, w) && s.held[w].job.id == id
  }

  /** Every holder is live, every job in process has one, and none was ever taken from its worker. */
  ghost predicate NoLapse(s: State) {
    && (forall w :: w in s.held ==> Live(s, w))
    && (forall id :: 0 <= id < |s.jobs| && s.jobs[id].status.Processing? ==> exists w :: Holds(s, w, id))
    && (forall id :: 0 <= id < |s.lapses| ==> s.lapses[id] == 0)
  }

  /** When all holders are live, a prompt action is timely. */
  lemma PromptIsTimely(s: State, a: Action)
    requires NoLapse(s) && Prompt(s, a)
    ensures Timely(s, a)
  {
  }

  /** A worker keeps holding a job that stays in process. */
  lemma HoldStays(settings: Settings, s: State, a: Action, w: nat, id: nat)
    requires HoldersOk(s) && Prompt(s, a) && Holds(s, w, id) && settings.leaseMs > 0
    requires var t := Apply(settings, s, a); id < |t.jobs| && t.jobs[id].status.Processing?
    ensures Holds(Apply(settings, s, a), w, id)
  {
    assert HolderOk(s, w);
    match a
    case Fail(v, error, failedAt) =>
    case _ =>
  }

  /** A job comes into process by a claim, which leaves it held. */
  lemma HoldBegins(settings: Settings, s: State, a: Action, id: nat)
    requires settings.leaseMs > 0 && (id < |s.jobs| ==> !s.jobs[id].status.Processing?)
    requires var t := Apply(settings, s, a); id < |t.jobs| && t.jobs[id].status.Processing?
    ensures a.Claim? && Holds(Apply(settings, s, a), a.worker, id)
  {
  }

  /** A live holder keeps its job from being claimed, so none is taken from its worker. */
  lemma NothingLapses(settings: Settings, s: State, a: Action)
    requires HoldersOk(s) && NoLapse(s)
    ensures var t := Apply(settings, s, a); forall id :: 0 <= id < |t.lapses| ==> t.lapses[id] == 0
  {
    forall id | 0 <= id < |s.jobs| && s.jobs[id].status.Processing?
      ensures !Claimable(s.jobs[id], settings.dlqs.Keys, s.now)
    {
      var w :| Holds(s, w, id);
      NotHeldUnlessFree(s, w, settings.dlqs.Keys, id);
    }
  }

  lemma NotHeldUnlessFree(s: State, w: nat, queues: set<string>, id: nat)
    requires HoldersOk(s) && Holds(s, w, id) && id < |s.jobs|
    ensures !Claimable(s.jobs[id], queues, s.now)
  {
    assert HolderOk(s, w);
  }

  lemma HoldersLive(settings: Settings, s: State, a: Action)
    requires NoLapse(s) && Prompt(s, a) && settings.leaseMs > 0
    ensures var t := Apply(settings, s, a); forall w :: w in t.held ==> Live(t, w)
  {
  }

  lemma StepNoLapse(settings: Settings, s: State, a: Action)
    requires Inv(settings, s) && NoLapse(s) && Prompt(s, a) && settings.leaseMs > 0
    ensures NoLapse(Apply(settings, s, a))
  {
    hide HoldersOk;
    hide Exclusive;
    hide CountsOk;
    hide EnvelopesOk;
    hide StaleOk;
    NothingLapses(settings, s, a);
    HoldersLive(settings, s, a);
    var t := Apply(settings, s, a);
    hide Apply;
    hide Prompt;
    hide Live;
    hide Holds;
    forall id | 0 <= id < |t.jobs| && t.jobs[id].status.Processing? ensures exists w :: Holds(t, w, id) {
      if id < |s.jobs| && s.jobs[id].status.Processing? {
        var w :| Holds(s, w, id);
        HoldStays(settings, s, a, w, id);
      } else {
        HoldBegins(settings, s, a, id);
      }
    }
  }

  lemma {:induction false} RunNoLapse(settings: Settings, s: State, actions: seq<Action>)
    requires Inv(settings, s) && NoLapse(s) && PromptRun(settings, s, actions) && settings.leaseMs > 0
    ensures TimelyRun(settings, s, actions) && NoLapse(Run(settings, s, actions))
    decreases |actions|
  {
    if actions != [] {
      PromptIsTimely(s, actions[0]);
      StepKeeps(settings, s, actions[0]);
      StepNoLapse(settings, s, actions[0]);
      hide Inv;
      hide NoLapse;
      hide Apply;
      RunNoLapse(settings, Apply(settings, s, actions[0]), actions[1..]);
    }
  }

  /**
   When every handler ends before its own lease does, over any run of any number of workers: a job is tried
   at most max(1, maxAttempts) times, and all that `Accounting` says holds.
   */
  lemma AttemptsAreBounded(settings: Settings, now: int, actions: seq<Action>)
    requires PromptRun(settings, Start(now), actions) && settings.leaseMs > 0
    ensures TimelyRun(settings, Start(now), actions)
    ensures var t := Run(settings, Start(now), actions);
      && (forall id :: 0 <= id < |t.jobs| ==> t.jobs[id].attempts <= Max(1, settings.maxAttempts))
      && (forall id :: 0 <= id < |t.jobs| && t.jobs[id].status.Processing? ==> exists w :: Holds(t, w, id))
  {
    StartInv(settings, now);
    RunNoLapse(settings, Start(now), actions);
    Accounting(settings, now, actions);
  }

  /**
   Any timely run of any number of workers, which may crash or give up a claimed job at any point: no two hold a
   job at once; a job is tried no more than max(1, maxAttempts) times, plus once for each time it was claimed
   again without having been reported on; each job in the dead-letter state has an envelope with its own payload
   and attempts; and every row is either one that somebody sent, or the latest envelope of one job, or an earlier
   envelope of a job whose report was cut off.
   */
  lemma Accounting(settings: Settings, now: int, actions: seq<Action>)
    requires TimelyRun(settings, Start(now), actions)
    ensures var t := Run(settings, Start(now), actions);
      && Exclusive(t) && |t.lapses| == |t.jobs|
      && (forall id :: 0 <= id < |t.jobs| ==> t.jobs[id].attempts <= Max(1, settings.maxAttempts) + t.lapses[id])
      && (forall id :: 0 <= id < |t.jobs| && t.jobs[id].status.Dlq? ==>
            id in t.envelopes && t.envelopes[id] < |t.jobs|
            && IsEnvelopeOf(settings, t.jobs[t.envelopes[id]], id, t.jobs[id]))
      && (forall id :: id in t.envelopes <==> Due(settings, t, id) || id in t.cut)
      && StaleOk(settings, t)
      && RowsSplit(t, SentRows(settings, Start(now), actions))
      && |t.jobs| == Sends(actions) + |t.envelopes| + |t.stale|
  {
    hide Apply;
    hide Run;
    hide TimelyRun;
    hide RowsSplit;
    hide SentRows;
    hide IsEnvelopeOf;
    hide HoldersOk;
    hide Exclusive;
    hide StaleOk;
    var s := Start(now);
    StartInv(settings, now);
    RunKeeps(settings, s, actions);
    RunSplits(settings, s, actions, {});
    assert {} + SentRows(settings, s, actions) == SentRows(settings, s, actions);
    var t := Run(settings, s, actions);
    AttemptsWithin(settings, t);
    forall id: nat | id < |t.jobs| && t.jobs[id].status.Dlq?
      ensures id in t.envelopes && t.envelopes[id] < |t.jobs|
      ensures IsEnvelopeOf(settings, t.jobs[t.envelopes[id]], id, t.jobs[id])
    {
      DeadHasEnvelope(settings, t, id);
    }
    hide EnvelopeOk;
    hide Due;
    hide CountsOk;
  }

  lemma AttemptsWithin(settings: Settings, s: State)
    requires CountsOk(settings, s)
    ensures |s.lapses| == |s.jobs|
    ensures forall id :: 0 <= id < |s.jobs| ==> s.jobs[id].attempts <= Max(1, settings.maxAttempts) + s.lapses[id]
  {
    forall id | 0 <= id < |s.jobs| ensures s.jobs[id].attempts <= Max(1, settings.maxAttempts) + s.lapses[id] {
      assert AttemptsOk(settings, s.jobs[id], s.lapses[id]);
    }
  }

  lemma DeadHasEnvelope(settings: Settings, s: State, id: nat)
    requires EnvelopesOk(settings, s) && id < |s.jobs| && s.jobs[id].status.Dlq?
    ensures id in s.envelopes && s.envelopes[id] < |s.jobs|
    ensures IsEnvelopeOf(settings, s.jobs[s.envelopes[id]], id, s.jobs[id])
  {
    hide IsEnvelopeOf;
    hide WasEnvelopeOf;
    assert Due(settings, s, id);
    assert EnvelopeOk(settings, s, id);
  }

  // ----- one envelope, or more -----

  /** The action is the failure of a job whose due report was cut off before. */
  predicate FailsAfterCut(s: State, a: Action, id: nat) {
    a.Fail? && a.worker in s.held && s.held[a.worker].phase.Running? && s.held[a.worker].job.id == id && id in s.cut
  }

  predicate FailsAgain(settings: Settings, s: State, actions: seq<Action>, id: nat)
    decreases |actions|
  {
    actions != []
    && (FailsAfterCut(s, actions[0], id) || FailsAgain(settings, Apply(settings, s, actions[0]), actions[1..], id))
  }

  ghost predicate HasStale(s: State, id: nat) {
    exists row :: row in s.stale && s.stale[row] == id
  }

  lemma StepStale(settings: Settings, s: State, a: Action, id: nat)
    requires Inv(settings, s) && Timely(s, a)
    ensures HasStale(Apply(settings, s, a), id) <==> HasStale(s, id) || FailsAfterCut(s, a, id)
  {
    hide Inv;
    if a.Fail? && a.worker in s.held && s.held[a.worker].phase.Running? {
      FailStale(settings, s, a.worker, a.error, a.failedAt, id);
    } else {
      assert Apply(settings, s, a).stale == s.stale;
    }
  }

  lemma FailStale(settings: Settings, s: State, w: nat, error: string, failedAt: string, id: nat)
    requires Inv(settings, s) && Live(s, w) && s.held[w].phase.Running?
    ensures HasStale(FailBy(settings, s, w, error, failedAt), id)
      <==> HasStale(s, id) || (s.held[w].job.id == id && id in s.cut)
  {
    hide HoldersOk;
    hide Exclusive;
    hide CountsOk;
    hide Due;
    hide WasEnvelopeOf;
    hide ShouldDlq;
    var t := FailBy(settings, s, w, error, failedAt);
    var job := s.held[w].job;
    NewEnvelope(settings, s, w);
    if job.id in s.cut {
      CutIsSpent(settings, s, w);
      StaleAdded(s, t, s.envelopes[job.id], job.id, id);
    }
  }

  lemma StaleAdded(s: State, t: State, row: nat, owner: nat, id: nat)
    requires row !in s.stale && t.stale == s.stale[row := owner]
    ensures HasStale(t, id) <==> HasStale(s, id) || id == owner
  {
    if r :| r in s.stale && s.stale[r] == id { assert t.stale[r] == id; }
    assert t.stale[row] == owner;
  }

  /** A job whose report was cut off is due again as soon as it fails again. */
  lemma CutIsSpent(settings: Settings, s: State, w: nat)
    requires Inv(settings, s) && Live(s, w) && s.held[w].job.id in s.cut
    ensures ShouldDlq(settings, s.held[w].job)
  {
    assert HolderOk(s, w);
    var id := s.held[w].job.id;
    assert id in s.envelopes && WasEnvelopeOf(settings, s.jobs[s.envelopes[id]], id, s.jobs[id]);
  }

  lemma {:induction false} RunStale(settings: Settings, s: State, actions: seq<Action>, id: nat)
    requires Inv(settings, s) && TimelyRun(settings, s, actions)
    ensures HasStale(Run(settings, s, actions), id) <==> HasStale(s, id) || FailsAgain(settings, s, actions, id)
    decreases |actions|
  {
    hide Inv;
    hide Apply;
    hide Timely;
    hide HasStale;
    hide FailsAfterCut;
    if actions != [] {
      StepStale(settings, s, actions[0], id);
      StepKeeps(settings, s, actions[0]);
      RunStale(settings, Apply(settings, s, actions[0]), actions[1..], id);
    }
  }

  /** The rows that are envelopes of job `id`. */
  function EnvelopesOf(s: State, id: nat): set<nat> {
    (if id in s.envelopes then {s.envelopes[id]} else {}) + set row | row in s.stale && s.stale[row] == id
  }

  /**
   Exactly when a dead job has one envelope: over any timely run, crashes at any point included, a job in the
   dead-letter state has a second envelope if and only if it failed again after a report of it was cut off
   between its two statements.
   */
  lemma OneEnvelopeExactly(settings: Settings, now: int, actions: seq<Action>, id: nat)
    requires TimelyRun(settings, Start(now), actions)
    requires var t := Run(settings, Start(now), actions); id < |t.jobs| && t.jobs[id].status.Dlq?
    ensures |EnvelopesOf(Run(settings, Start(now), actions), id)| == 1
      <==> !FailsAgain(settings, Start(now), actions, id)
  {
    hide FailsAgain;
    hide TimelyRun;
    hide Run;
    hide RowsSplit;
    hide Exclusive;
    hide IsEnvelopeOf;
    hide EnvelopesOf;
    hide Due;
    hide HasStale;
    hide StaleOk;
    Accounting(settings, now, actions);
    StaleExactly(settings, now, actions, id);
    CountEnvelopes(settings, Run(settings, Start(now), actions), id);
  }

  /** So the rows nobody sent are the envelopes, one for a job, if and only if no such job fails again. */
  lemma NoExtraEnvelopesExactly(settings: Settings, now: int, actions: seq<Action>)
    requires TimelyRun(settings, Start(now), actions)
    ensures var t := Run(settings, Start(now), actions);
      |t.jobs| == Sends(actions) + |t.envelopes| <==> forall id: nat :: !FailsAgain(settings, Start(now), actions, id)
  {
    hide FailsAgain;
    hide TimelyRun;
    hide Run;
    hide RowsSplit;
    hide Exclusive;
    hide IsEnvelopeOf;
    hide Due;
    hide StaleOk;
    Accounting(settings, now, actions);
    var t := Run(settings, Start(now), actions);
    forall id: nat ensures HasStale(t, id) <==> FailsAgain(settings, Start(now), actions, id) {
      StaleExactly(settings, now, actions, id);
    }
    if t.stale.Keys == {} {
      assert forall row :: row !in t.stale;
    } else {
      var row :| row in t.stale.Keys;
      var id := t.stale[row];
      assert HasStale(t, id);
      assert FailsAgain(settings, Start(now), actions, id);
      assert |t.stale| == |t.stale.Keys| > 0;
    }
  }

  lemma StaleExactly(settings: Settings, now: int, actions: seq<Action>, id: nat)
    requires TimelyRun(settings, Start(now), actions)
    ensures HasStale(Run(settings, Start(now), actions), id) <==> FailsAgain(settings, Start(now), actions, id)
  {
    StartInv(settings, now);
    RunStale(settings, Start(now), actions, id);
    assert !HasStale(Start(now), id);
  }

  lemma CountEnvelopes(settings: Settings, s: State, id: nat)
    requires StaleOk(settings, s) && id in s.envelopes
    ensures |EnvelopesOf(s, id)| == 1 <==> !HasStale(s, id)
  {
    hide WasEnvelopeOf;
    var latest := s.envelopes[id];
    if HasStale(s, id) {
      var row :| row in s.stale && s.stale[row] == id;
      assert {latest, row} <= EnvelopesOf(s, id);
      SubsetSize({latest, row}, EnvelopesOf(s, id));
    } else {
      assert EnvelopesOf(s, id) == {latest};
    }
  }

  lemma {:induction false} SubsetSize(a: set<nat>, b: set<nat>)
    requires a <= b
    ensures |a| <= |b|
  {
    if a != {} {
      var x :| x in a;
      SubsetSize(a - {x}, b - {x});
    }
  }

  /**
   A job whose worker gives it up unreported, by crashing or because an earlier job of its claimed batch threw,
   is claimable again once its lease is over, with the attempt counted.
   */
  lemma AbandonedCostsAnAttempt(settings: Settings, s: State, w: nat, to: int)
    requires Inv(settings, s) && Live(s, w) && s.held[w].phase.Running? && to >= s.held[w].expires
    requires s.held[w].job.queue in settings.dlqs
    ensures var t := Apply(settings, Apply(settings, s, Crash(w)), Tick(to));
      var id := s.held[w].job.id;
      id < |t.jobs| && Claimable(t.jobs[id], settings.dlqs.Keys, t.now) && t.jobs[id].attempts == s.held[w].job.attempts
  {
    assert HolderOk(s, w);
  }

  // ----- nothing is taken before its time -----

  lemma PendingStays(settings: Settings, s: State, a: Action, id: nat)
    requires Inv(settings, s) && Timely(s, a) && id < |s.jobs| && s.jobs[id].status.Pending?
    requires Apply(settings, s, a).now < s.jobs[id].availableAt
    ensures var t := Apply(settings, s, a); s.now <= t.now && id < |t.jobs| && t.jobs[id] == s.jobs[id]
  {
    hide EnvelopesOk;
    hide StaleOk;
    hide CountsOk;
    hide Exclusive;
    match a
    case Claim(w) => ClaimTakesFirstReady(s.jobs, settings.dlqs.Keys, s.now, settings.leaseMs);
    case Finish(w) => if w in s.held { assert HolderOk(s, w); }
    case Fail(w, _, _) => if w in s.held { assert HolderOk(s, w); }
    case Mark(w) => if w in s.held { assert HolderOk(s, w); }
    case _ =>
  }

  lemma ClockGoesOn(settings: Settings, s: State, a: Action)
    ensures Apply(settings, s, a).now >= s.now
  {
  }

  lemma {:induction false} ClockRuns(settings: Settings, s: State, actions: seq<Action>)
    ensures Run(settings, s, actions).now >= s.now
    decreases |actions|
  {
    hide Apply;
    if actions != [] {
      ClockGoesOn(settings, s, actions[0]);
      ClockRuns(settings, Apply(settings, s, actions[0]), actions[1..]);
    }
  }

  /** Over any timely run a pending job is left exactly as it is until the clock reaches the time it is available at. */
  lemma {:induction false} LeftUntilAvailable(settings: Settings, s: State, actions: seq<Action>, id: nat)
    requires Inv(settings, s) && TimelyRun(settings, s, actions) && id < |s.jobs| && s.jobs[id].status.Pending?
    requires Run(settings, s, actions).now < s.jobs[id].availableAt
    ensures var t := Run(settings, s, actions); id < |t.jobs| && t.jobs[id] == s.jobs[id]
    decreases |actions|
  {
    hide Inv;
    hide Apply;
    hide Timely;
    if actions != [] {
      var next := Apply(settings, s, actions[0]);
      ClockRuns(settings, next, actions[1..]);
      StepKeeps(settings, s, actions[0]);
      PendingStays(settings, s, actions[0], id);
      LeftUntilAvailable(settings, next, actions[1..], id);
    }
  }

  /** So a job sent with a delay is ready as soon as that delay is over, and not taken before; a negative delay is none. */
  lemma SentIsDelayed(settings: Settings, s: State, queue: string, payload: Json, delayMs: int, actions: seq<Action>)
    requires Inv(settings, s) && TimelyRun(settings, Apply(settings, s, Send(queue, payload, delayMs)), actions)
    ensures var sent := Apply(settings, s, Send(queue, payload, delayMs));
      && |sent.jobs| == |s.jobs| + 1
      && forall queues, later :: Ready(sent.jobs[|s.jobs|], queues, later)
           <==> queue in queues && later >= s.now && later >= s.now + delayMs
    ensures var t := Run(settings, Apply(settings, s, Send(queue, payload, delayMs)), actions);
      t.now < s.now + delayMs ==>
        |s.jobs| < |t.jobs| && t.jobs[|s.jobs|].status.Pending? && t.jobs[|s.jobs|].attempts == 0
  {
    hide Inv;
    hide TimelyRun;
    hide Run;
    var sent := Apply(settings, s, Send(queue, payload, delayMs));
    StepKeeps(settings, s, Send(queue, payload, delayMs));
    if Run(settings, sent, actions).now < s.now + delayMs { LeftUntilAvailable(settings, sent, actions, |s.jobs|); }
  }

  /** And one that failed is ready again when the retry delay is over, and not taken before; nor ever if no attempts are left. */
  lemma RetryIsDelayed(settings: Settings, s: State, w: nat, actions: seq<Action>)
    requires Inv(settings, s) && Live(s, w) && s.held[w].phase.Reporting?
    requires TimelyRun(settings, Apply(settings, s, Mark(w)), actions)
    ensures var marked := Apply(settings, s, Mark(w));
      var job := s.held[w].job;
      && job.id < |marked.jobs|
      && forall queues, later :: Ready(marked.jobs[job.id], queues, later)
           <==> job.attempts < settings.maxAttempts && job.queue in queues && later >= s.now + settings.retryDelayMs
    ensures var t := Run(settings, Apply(settings, s, Mark(w)), actions);
      var job := s.held[w].job;
      && job.id < |t.jobs|
      && (t.now < s.now + settings.retryDelayMs || job.attempts >= settings.maxAttempts ==>
            && t.jobs[job.id].attempts == job.attempts
            && (t.jobs[job.id].status.Pending? <==> job.attempts < settings.maxAttempts)
            && !t.jobs[job.id].status.Processing?)
  {
    var job := s.held[w].job;
    assert HolderOk(s, w);
    var marked := Apply(settings, s, Mark(w));
    StepKeeps(settings, s, Mark(w));
    RunKeeps(settings, marked, actions);
    hide Inv;
    hide TimelyRun;
    hide Run;
    if job.attempts < settings.maxAttempts && Run(settings, marked, actions).now < s.now + settings.retryDelayMs {
      LeftUntilAvailable(settings, marked, actions, job.id);
    }
  }

  // ----- attempts count claims -----

  /** The action is a claim that takes job `id`. */
  predicate Takes(settings: Settings, s: State, a: Action, id: nat) {
    && a.Claim? && a.worker !in s.held
    && var held := Apply(settings, s, a).held; a.worker in held && held[a.worker].job.id == id
  }

  function Claims(settings: Settings, s: State, actions: seq<Action>, id: nat): nat
    decreases |actions|
  {
    if actions == [] then 0
    else
      (if Takes(settings, s, actions[0], id) then 1 else 0)
        + Claims(settings, Apply(settings, s, actions[0]), actions[1..], id)
  }

  lemma StepCounts(settings: Settings, s: State, a: Action, id: nat)
    ensures var t := Apply(settings, s, a);
      && |s.jobs| <= |t.jobs|
      && (id < |t.jobs| ==>
            t.jobs[id].attempts
              == (if id < |s.jobs| then s.jobs[id].attempts else 0) + if Takes(settings, s, a, id) then 1 else 0)
      && (id >= |t.jobs| ==> !Takes(settings, s, a, id))
  {
    if a.Claim? { ClaimTakesFirstReady(s.jobs, settings.dlqs.Keys, s.now, settings.leaseMs); }
  }

  lemma {:induction false} RunCounts(settings: Settings, s: State, actions: seq<Action>, id: nat)
    ensures var t := Run(settings, s, actions);
      && |s.jobs| <= |t.jobs|
      && (id < |t.jobs| ==>
            t.jobs[id].attempts
              == (if id < |s.jobs| then s.jobs[id].attempts else 0) + Claims(settings, s, actions, id))
      && (id >= |t.jobs| ==> Claims(settings, s, actions, id) == 0)
    decreases |actions|
  {
    hide Apply;
    hide Takes;
    if actions != [] {
      StepCounts(settings, s, actions[0], id);
      RunCounts(settings, Apply(settings, s, actions[0]), actions[1..], id);
    }
  }

  /** Over any run at all, the attempts of a job are the claims that took it. */
  lemma AttemptsAreClaims(settings: Settings, now: int, actions: seq<Action>, id: nat)
    requires id < |Run(settings, Start(now), actions).jobs|
    ensures Run(settings, Start(now), actions).jobs[id].attempts == Claims(settings, Start(now), actions, id)
  {
    RunCounts(settings, Start(now), actions, id);
  }

  // ----- without the hypothesis -----

  lemma RunTwo(settings: Settings, s: State, a: Action, b: Action, more: seq<Action>)
    ensures Run(settings, s, [a, b] + more) == Run(settings, Apply(settings, Apply(settings, s, a), b), more)
  {
    assert ([a, b] + more)[1..] == [b] + more;
    assert ([b] + more)[1..] == more;
  }

  const LATE := Settings(map["q" := None], 3, 5, 10)
  const FIRST := Holding(Claimed(0, "q", Null, 1), 10, Running)
  const CLAIMED_ONCE := State([Job("q", Null, Processing, 0, 1, Some(10))], map[1 := FIRST], 0, map[], map[], {}, [0])
  const CLAIMED_TWICE := State([Job("q", Null, Processing, 0, 2, Some(30))],
    map[1 := FIRST, 2 := Holding(Claimed(0, "q", Null, 2), 30, Running)], 20, map[], map[], {}, [1])
  const FINISHED := State([Job("q", Null, Completed, 0, 2, None)], map[1 := FIRST], 20, map[], map[], {}, [1])

  lemma LateClaims()
    ensures Apply(LATE, Apply(LATE, Start(0), Send("q", Null, 0)), Claim(1)) == CLAIMED_ONCE
    ensures Apply(LATE, Apply(LATE, CLAIMED_ONCE, Tick(20)), Claim(2)) == CLAIMED_TWICE
  {
    assert Apply(LATE, Start(0), Send("q", Null, 0))
        == State([Job("q", Null, Pending, 0, 0, None)], map[], 0, map[], map[], {}, [0]);
    assert Apply(LATE, CLAIMED_ONCE, Tick(20)) == CLAIMED_ONCE.(now := 20);
  }

  lemma LateReports()
    ensures Apply(LATE, CLAIMED_TWICE, Finish(2)) == FINISHED
    ensures var t := Apply(LATE, Apply(LATE, FINISHED, Fail(1, "late", "now")), Mark(1));
      |t.jobs| == 1 && t.jobs[0].status.Pending?
  {
    assert Without(CLAIMED_TWICE.held, 2) == FINISHED.held;
    assert Apply(LATE, FINISHED, Fail(1, "late", "now")) == FINISHED.(held := map[1 := FIRST.(phase := Reporting)]);
  }

  /** A worker that reports after its lease has ended can undo what another worker finished. */
  lemma LateReportReopens()
    ensures var s := Run(LATE, Start(0), [Send("q", Null, 0), Claim(1), Tick(20), Claim(2), Finish(2)]);
      var t := Run(LATE, s, [Fail(1, "late", "now"), Mark(1)]);
      |s.jobs| == 1 && s.jobs[0].status.Completed? && |t.jobs| == 1 && t.jobs[0].status.Pending?
  {
    LateClaims();
    LateReports();
    hide Apply;
    RunTwo(LATE, Start(0), Send("q", Null, 0), Claim(1), [Tick(20), Claim(2), Finish(2)]);
    RunTwo(LATE, CLAIMED_ONCE, Tick(20), Claim(2), [Finish(2)]);
    RunTwo(LATE, FINISHED, Fail(1, "late", "now"), Mark(1), []);
    assert Run(LATE, CLAIMED_TWICE, [Finish(2)]) == Run(LATE, FINISHED, []);
  }

  const DEAD := Settings(map["q" := Some("dead")], 1, 5, 10)
  const SENT := Envelope(FIRST.job, "e", "t")
  const CRASHED := State(
    [Job("q", Null, Processing, 0, 1, Some(10)), Job("dead", SENT, Pending, 0, 0, None)], map[], 0, map[0 := 1], map[],
    {0}, [0, 0])
  const RETRIED := State(
    [Job("q", Null, Processing, 0, 2, Some(30)), Job("dead", SENT, Pending, 0, 0, None)],
    map[2 := Holding(Claimed(0, "q", Null, 2), 30, Running)], 20, map[0 := 1], map[], {0}, [1, 0])

  lemma CrashSteps()
    ensures Apply(DEAD, Apply(DEAD, Start(0), Send("q", Null, 0)), Claim(1)) == CLAIMED_ONCE
    ensures Apply(DEAD, Apply(DEAD, CLAIMED_ONCE, Fail(1, "e", "t")), Crash(1)) == CRASHED
  {
    assert Apply(DEAD, Start(0), Send("q", Null, 0))
        == State([Job("q", Null, Pending, 0, 0, None)], map[], 0, map[], map[], {}, [0]);
    assert Apply(DEAD, CLAIMED_ONCE, Fail(1, "e", "t")).jobs == CRASHED.jobs;
    assert Without(Apply(DEAD, CLAIMED_ONCE, Fail(1, "e", "t")).held, 1) == map[];
  }

  lemma RetrySteps()
    ensures Apply(DEAD, Apply(DEAD, CRASHED, Tick(20)), Claim(2)) == RETRIED
    ensures var t := Apply(DEAD, Apply(DEAD, RETRIED, Fail(2, "e", "t")), Mark(2));
      && |t.jobs| == 3 && t.jobs[0].status.Dlq? && t.jobs[1].queue == "dead" && t.jobs[2].queue == "dead"
      && t.envelopes == map[0 := 2] && t.stale == map[1 := 0]
  {
    assert Apply(DEAD, CRASHED, Tick(20)) == CRASHED.(now := 20);
    assert NextClaimable(CRASHED.jobs, {"q"}, 20, 0) == 0;
    assert DEAD.dlqs.Keys == {"q"};
  }

  /** A crash between the two statements of a failure sends a second envelope when the job is retried. */
  lemma CrashSendsTwoEnvelopes()
    ensures var t := Run(DEAD, Start(0),
        [Send("q", Null, 0), Claim(1), Fail(1, "e", "t"), Crash(1), Tick(20), Claim(2), Fail(2, "e", "t"), Mark(2)]);
      && |t.jobs| == 3 && t.jobs[0].status.Dlq? && t.jobs[1].queue == "dead" && t.jobs[2].queue == "dead"
      && t.envelopes == map[0 := 2] && t.stale == map[1 := 0]
  {
    CrashSteps();
    RetrySteps();
    hide Apply;
    RunTwo(DEAD, Start(0), Send("q", Null, 0), Claim(1),
      [Fail(1, "e", "t"), Crash(1), Tick(20), Claim(2), Fail(2, "e", "t"), Mark(2)]);
    RunTwo(DEAD, CLAIMED_ONCE, Fail(1, "e", "t"), Crash(1), [Tick(20), Claim(2), Fail(2, "e", "t"), Mark(2)]);
    RunTwo(DEAD, CRASHED, Tick(20), Claim(2), [Fail(2, "e", "t"), Mark(2)]);
    RunTwo(DEAD, RETRIED, Fail(2, "e", "t"), Mark(2), []);
  }
}


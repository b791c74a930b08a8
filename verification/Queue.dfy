/** The job queue: rows of `jobs`, the claim, and the marks that end an attempt. */
module Queue {
  import opened Common

  datatype Status = Queued | Running | Succeeded | DeadLetter

  datatype Kind = Ingest | Extract

  datatype Job = Job(
    source: Id,
    kind: Kind,
    document: Option<Id>,
    status: Status,
    attempts: nat,
    createdAt: Time,
    claimedAt: Option<Time>,
    succeededAt: Option<Time>,
    lastError: Option<string>
  )

  type Table = map<Id, Job>

  function NewJob(source: Id, kind: Kind, document: Option<Id>, now: Time): Job {
    Job(source, kind, document, Queued, 0, now, None, None, None)
  }

  predicate Terminal(job: Job) {
    job.status == Succeeded || job.status == DeadLetter
  }

  /** The attempt budget; the first claim is always allowed. */
  function Cap(maxAttempts: int): (cap: nat)
    ensures cap >= 1
  {
    if maxAttempts < 1 then 1 else maxAttempts
  }

  /** A committed row: no row is `running`, and a queued one has an attempt left. */
  predicate RowOk(job: Job, maxAttempts: int) {
    && ((job.kind == Extract) <==> job.document.Some?)
    && job.status != Running
    && job.attempts <= Cap(maxAttempts)
    && (job.status == Queued ==> job.attempts < Cap(maxAttempts))
  }

  /** The WHERE clause of the claim: queued, or running past the visibility timeout. */
  predicate Available(job: Job, now: Time, timeout: int) {
    || job.status == Queued
    || (job.status == Running && job.claimedAt.Some? && job.claimedAt.value < now - timeout)
  }

  predicate Claimable(jobs: Table, locked: set<Id>, id: Id, now: Time, timeout: int) {
    id in jobs && id !in locked && Available(jobs[id], now, timeout)
  }

  /** ORDER BY created_at FOR UPDATE SKIP LOCKED LIMIT 1. */
  predicate IsOldest(jobs: Table, locked: set<Id>, id: Id, now: Time, timeout: int) {
    && Claimable(jobs, locked, id, now, timeout)
    && forall other | other in jobs && Claimable(jobs, locked, other, now, timeout) ::
         jobs[id].createdAt <= jobs[other].createdAt
  }

  function Claim(job: Job, now: Time): Job {
    job.(status := Running, claimedAt := Some(now), attempts := job.attempts + 1)
  }

  function MarkSucceeded(job: Job, now: Time): Job {
    job.(status := Succeeded, succeededAt := Some(now))
  }

  function MarkFailed(job: Job, error: string, permanent: bool, maxAttempts: int): Job {
    var status := if permanent || job.attempts >= maxAttempts then DeadLetter else Queued;
    job.(status := status, lastError := Some(error))
  }

  /** How an attempt ended. */
  datatype Ending = Success | TransientFailure(error: string) | PermanentFailure(error: string)

  /** The row a transaction commits for the job it claimed. */
  function Conclude(job: Job, ending: Ending, now: Time, maxAttempts: int): Job {
    var claimed := Claim(job, now);
    match ending
    case Success => MarkSucceeded(claimed, now)
    case TransientFailure(error) => MarkFailed(claimed, error, false, maxAttempts)
    case PermanentFailure(error) => MarkFailed(claimed, error, true, maxAttempts)
  }

  lemma {:induction false} SomeOldest(jobs: Table, ids: set<Id>) returns (id: Id)
    requires ids != {} && ids <= jobs.Keys
    ensures id in ids && forall other | other in ids :: jobs[id].createdAt <= jobs[other].createdAt
    decreases |ids|
  {
    id :| id in ids;
    var rest := ids - {id};
    assert ids == rest + {id};
    if rest != {} {
      var other := SomeOldest(jobs, rest);
      if jobs[other].createdAt <= jobs[id].createdAt {
        id := other;
      }
    }
  }

  /** One claim-to-outcome transaction keeps a row within its budget and ends its claim. */
  lemma ConcludeKeepsRow(job: Job, ending: Ending, now: Time, maxAttempts: int)
    requires RowOk(job, maxAttempts) && job.status == Queued
    ensures var after := Conclude(job, ending, now, maxAttempts);
      && RowOk(after, maxAttempts)
      && after.attempts == job.attempts + 1
      && (after.status == Queued <==> ending.TransientFailure? && after.attempts < Cap(maxAttempts))
      && after.source == job.source && after.kind == job.kind && after.document == job.document
      && after.createdAt == job.createdAt && after.claimedAt == Some(now)
      && (after.status == Succeeded <==> ending.Success?)
      && after.succeededAt == (if ending.Success? then Some(now) else job.succeededAt)
      && after.lastError == (if ending.Success? then job.lastError else Some(ending.error))
  {
  }

  /** Among committed rows the visibility-timeout branch of the claim never applies. */
  lemma OnlyQueuedIsAvailable(job: Job, now: Time, timeout: int, maxAttempts: int)
    requires RowOk(job, maxAttempts)
    ensures Available(job, now, timeout) <==> job.status == Queued
  {
  }

  /** Of two jobs enqueued at different times the earlier one is claimed first, unless another
      transaction holds it. */
  lemma EarlierIsClaimedFirst(jobs: Table, locked: set<Id>, i: Id, j: Id, source: Id, other: Id,
                              kind: Kind, kind': Kind, document: Option<Id>, document': Option<Id>,
                              first: Time, second: Time, now: Time, timeout: int)
    requires i in jobs && jobs[i] == NewJob(source, kind, document, first)
    requires j in jobs && jobs[j] == NewJob(other, kind', document', second)
    requires first < second && i !in locked
    ensures !IsOldest(jobs, locked, j, now, timeout)
    ensures jobs[i].source == source && jobs[i].kind == kind && jobs[i].document == document
    ensures jobs[i].attempts == 0 && jobs[i].createdAt == first
  {
    assert Claimable(jobs, locked, i, now, timeout);
  }

  /** A claimed row is available again once the timeout has passed since its claim, not before. */
  lemma ClaimHoldsUntilTimeout(job: Job, claimedAt: Time, now: Time, timeout: int)
    ensures Available(Claim(job, claimedAt), now, timeout) <==> claimedAt + timeout < now
    ensures Claim(job, claimedAt).attempts == job.attempts + 1
  {
  }

  // ----------------------------------------------------------- callers that commit the claim

  /** n claims of one row, each committed on its own and each after the timeout of the last. */
  function Reclaimed(job: Job, n: nat, start: Time, timeout: nat): Job {
    if n == 0 then job else Claim(Reclaimed(job, n - 1, start, timeout), start + n * (timeout + 1))
  }

  /** With the claim committed separately every reclaim is available, so attempts are
      unbounded: the attempt budget is a property of one transaction per job. */
  lemma {:induction false} SeparateClaimsAreUnbounded(job: Job, n: nat, start: Time, timeout: nat)
    requires job.status == Queued
    ensures Reclaimed(job, n, start, timeout).attempts == job.attempts + n
    ensures Available(Reclaimed(job, n, start, timeout), start + (n + 1) * (timeout + 1), timeout)
  {
    if n > 0 {
      SeparateClaimsAreUnbounded(job, n - 1, start, timeout);
      assert start + (n + 1) * (timeout + 1) == start + n * (timeout + 1) + timeout + 1;
    }
  }

  /** A mark on a row outside its own transaction leaves a terminal row alone exactly when
      it repeats the row's status; a transient mark below the budget revives it. */
  lemma MarksHaveNoStatusGuard(job: Job, error: string, permanent: bool, maxAttempts: int)
    requires Terminal(job)
    ensures MarkFailed(job, error, permanent, maxAttempts).status == job.status
            <==> job.status == DeadLetter && (permanent || job.attempts >= maxAttempts)
    ensures !permanent && job.attempts < maxAttempts ==>
              MarkFailed(job, error, permanent, maxAttempts).status == Queued
  {
  }

  // --------------------------------------------------------------------- remaining work

  /** How many more committed claims a row can cause, its follow-up extract job included. */
  function Weight(job: Job, maxAttempts: int): nat {
    var left := if Terminal(job) || job.attempts > Cap(maxAttempts) then 0 else Cap(maxAttempts) - job.attempts;
    if Terminal(job) then 0 else if job.kind == Ingest then left + Cap(maxAttempts) else left
  }

  ghost function Work(jobs: Table, maxAttempts: int): nat {
    if jobs == map[] then 0 else
      var id :| id in jobs;
      Weight(jobs[id], maxAttempts) + Work(jobs - {id}, maxAttempts)
  }

  lemma {:induction false} WorkRemove(jobs: Table, id: Id, maxAttempts: int)
    requires id in jobs
    ensures Work(jobs, maxAttempts) == Weight(jobs[id], maxAttempts) + Work(jobs - {id}, maxAttempts)
    decreases |jobs|
  {
    var pick :| pick in jobs
      && Work(jobs, maxAttempts) == Weight(jobs[pick], maxAttempts) + Work(jobs - {pick}, maxAttempts);
    if pick != id {
      WorkRemove(jobs - {pick}, id, maxAttempts);
      WorkRemove(jobs - {id}, pick, maxAttempts);
      assert jobs - {pick} - {id} == jobs - {id} - {pick};
    }
  }

  lemma WorkUpdate(jobs: Table, id: Id, job: Job, maxAttempts: int)
    ensures Work(jobs[id := job], maxAttempts)
            == Work(jobs, maxAttempts) - (if id in jobs then Weight(jobs[id], maxAttempts) else 0)
               + Weight(job, maxAttempts)
  {
    WorkRemove(jobs[id := job], id, maxAttempts);
    assert jobs[id := job] - {id} == jobs - {id};
    if id in jobs {
      WorkRemove(jobs, id, maxAttempts);
    } else {
      assert jobs - {id} == jobs;
    }
  }

  /** Committing an attempt lowers the remaining work even when an ingest enqueues an extract job. */
  lemma CommitLowersWork(jobs: Table, id: Id, ending: Ending, extra: Option<(Id, Job)>, now: Time, maxAttempts: int)
    requires id in jobs && RowOk(jobs[id], maxAttempts) && jobs[id].status == Queued
    requires extra.Some? ==>
      && ending == Success && jobs[id].kind == Ingest && extra.value.0 !in jobs
      && extra.value.1.kind == Extract && extra.value.1.attempts == 0
    ensures var done := jobs[id := Conclude(jobs[id], ending, now, maxAttempts)];
      var after := if extra.Some? then done[extra.value.0 := extra.value.1] else done;
      Work(after, maxAttempts) < Work(jobs, maxAttempts)
  {
    ConcludeKeepsRow(jobs[id], ending, now, maxAttempts);
    var done := jobs[id := Conclude(jobs[id], ending, now, maxAttempts)];
    WorkUpdate(jobs, id, done[id], maxAttempts);
    WorkRemove(jobs, id, maxAttempts);
    if extra.Some? {
      WorkUpdate(done, extra.value.0, extra.value.1, maxAttempts);
    }
  }
}

/** The worker as it is written: one session claims a job, runs the stage it names,
    and marks it, changing the tables in place inside one database transaction. */
module Worker {
  import opened Common
  import opened Pipeline
  import PipelineRuns
  import PipelineSafety
  import Queue
  import Documents
  import Review

  datatype ModelOutcome =
    | Answer(record: Review.Record, confidence: Review.Confidence)
    | ModelError(kind: ErrorKind, error: string)

  /** What one attempt meets outside the database: the fetch, the model, and the fresh ids. */
  datatype World = World(
    fetch: Result<Documents.Fetched, ErrorKind>,
    documentId: Id,
    jobId: Id,
    client: Result<Identity, ErrorKind>,
    model: ModelOutcome,
    extractionId: Id,
    reviewIds: seq<Id>
  )

  ghost function StagedIngest(docs: Documents.Table, job: Queue.Job, world: World, now: Time, cfg: Config): Effects {
    match world.fetch
    case Err(kind) => Ended(EndingOf(kind, "fetch"))
    case Ok(f) =>
      match Documents.Plan(docs, f, cfg.env, job.source, world.documentId, now)
      case Err(e) => Ended(IngestEnding(e))
      case Ok(w) => Ingested(w, world.jobId)
  }

  ghost function StagedExtract(extractions: map<Id, Extraction>, docs: Documents.Table, document: Id,
                               world: World): Effects {
    match world.client
    case Err(kind) => Ended(EndingOf(kind, "client"))
    case Ok(identity) =>
      if HasComplete(extractions, document, identity) then Ended(Queue.Success)
      else if document !in docs then Ended(Queue.TransientFailure("document does not exist"))
      else
        match world.model
        case Answer(record, confidence) =>
          Effects(Queue.Success, None, None,
                  Some((world.extractionId, Complete(document, identity, record, confidence))), world.reviewIds)
        case ModelError(kind, error) =>
          Effects(EndingOf(kind, error), None, None, Some((world.extractionId, Failed(document, identity, kind))), [])
  }

  /** The private writes of an attempt nobody interferes with. */
  ghost function Staged(db: Database, job: Queue.Job, world: World, now: Time, cfg: Config): Effects
    requires (job.kind == Queue.Extract) <==> job.document.Some?
  {
    match job.kind
    case Ingest => StagedIngest(db.documents, job, world, now, cfg)
    case Extract => StagedExtract(db.extractions, db.documents, job.document.value, world)
  }

  // ------------------------------------------------------------- the attempt as a protocol run

  /** The protocol steps of an uninterrupted attempt, after the claim. */
  ghost function StageSteps(db: Database, w: Id, job: Queue.Job, world: World): seq<Step>
    requires (job.kind == Queue.Extract) <==> job.document.Some?
  {
    match job.kind
    case Ingest =>
      (match world.fetch
       case Err(kind) => [FetchFails(w, kind, "fetch")]
       case Ok(f) =>
         if Documents.WithBytes(db.documents, f.raw).Some? then [CheckBytes(w, f, world.jobId)]
         else [CheckBytes(w, f, world.jobId), CheckText(w, world.documentId, world.jobId)])
    case Extract =>
      match world.client
      case Err(kind) => [NoClient(w, kind, "client")]
      case Ok(identity) =>
        var document := job.document.value;
        if HasComplete(db.extractions, document, identity) || document !in db.documents then
          [CheckExtraction(w, identity)]
        else [ CheckExtraction(w, identity),
               match world.model
               case Answer(record, confidence) =>
                 ModelAnswers(w, world.extractionId, world.reviewIds, record, confidence)
               case ModelError(kind, error) => ModelFails(w, world.extractionId, kind, error) ]
  }

  lemma OneStep(s: System, step: Step, cfg: Config)
    requires Enabled(s, step, cfg)
    ensures PipelineRuns.IsRun(s, [step], cfg) && PipelineRuns.EndOf(s, [step], cfg) == After(s, step, cfg)
  {
    hide Enabled, After;
    assert [step][1..] == [];
    assert PipelineRuns.IsRun(After(s, step, cfg), [], cfg);
    assert PipelineRuns.EndOf(After(s, step, cfg), [], cfg) == After(s, step, cfg);
  }

  lemma TwoSteps(s: System, first: Step, second: Step, cfg: Config)
    requires Enabled(s, first, cfg) && Enabled(After(s, first, cfg), second, cfg)
    ensures PipelineRuns.IsRun(s, [first, second], cfg)
    ensures PipelineRuns.EndOf(s, [first, second], cfg) == After(After(s, first, cfg), second, cfg)
  {
    hide Enabled, After;
    OneStep(After(s, first, cfg), second, cfg);
    assert [first, second][1..] == [second];
  }

  /** An uninterrupted attempt is a run of the protocol that ends with the staged writes. */
  lemma StageIsARun(s: System, w: Id, world: World, cfg: Config)
    requires w in s.open && s.open[w].phase.Claimed?
    requires (s.open[w].before.kind == Queue.Extract) <==> s.open[w].before.document.Some?
    ensures var t := s.open[w];
      var steps := StageSteps(s.db, w, t.before, world);
      && PipelineRuns.IsRun(s, steps, cfg)
      && PipelineRuns.EndOf(s, steps, cfg) == Move(s, w, Finished(Staged(s.db, t.before, world, t.now, cfg)))
  {
    var t := s.open[w];
    var steps := StageSteps(s.db, w, t.before, world);
    if |steps| == 1 {
      OneStep(s, steps[0], cfg);
    } else {
      var mid := After(s, steps[0], cfg);
      TwoSteps(s, steps[0], steps[1], cfg);
      assert Move(mid, w, Finished(Staged(s.db, t.before, world, t.now, cfg)))
          == Move(s, w, Finished(Staged(s.db, t.before, world, t.now, cfg)));
    }
  }

  lemma {:induction false} AppendStep(s: System, steps: seq<Step>, last: Step, cfg: Config)
    requires PipelineRuns.IsRun(s, steps, cfg) && Enabled(PipelineRuns.EndOf(s, steps, cfg), last, cfg)
    ensures PipelineRuns.IsRun(s, steps + [last], cfg)
    ensures PipelineRuns.EndOf(s, steps + [last], cfg) == After(PipelineRuns.EndOf(s, steps, cfg), last, cfg)
    decreases |steps|
  {
    hide Enabled, After;
    if steps == [] {
      OneStep(s, last, cfg);
      assert steps + [last] == [last];
    } else {
      AppendStep(After(s, steps[0], cfg), steps[1..], last, cfg);
      assert (steps + [last])[1..] == steps[1..] + [last];
    }
  }

  /** The transaction of an uninterrupted attempt, ready to commit. */
  ghost function Attempt(db: Database, id: Id, world: World, now: Time, cfg: Config): Txn
    requires id in db.jobs && Queue.RowOk(db.jobs[id], cfg.maxAttempts)
  {
    Txn(id, db.jobs[id], now, Finished(Staged(db, db.jobs[id], world, now, cfg)))
  }

  ghost function AttemptSteps(db: Database, w: Id, id: Id, world: World, now: Time, cfg: Config): seq<Step>
    requires id in db.jobs && Queue.RowOk(db.jobs[id], cfg.maxAttempts)
  {
    [Claim(w, id, now)] + (StageSteps(db, w, db.jobs[id], world) + [Commit(w)])
  }

  lemma KindHasDocument(job: Queue.Job, maxAttempts: int)
    requires Queue.RowOk(job, maxAttempts)
    ensures (job.kind == Queue.Extract) <==> job.document.Some?
  {
  }

  /** The state change `RunOnce` makes when it commits is a run of the protocol: claim, stage, commit. */
  lemma AttemptIsARun(s: System, w: Id, id: Id, world: World, now: Time, cfg: Config)
    requires w !in s.open && Queue.IsOldest(s.db.jobs, Locked(s.open), id, now, cfg.timeout)
    requires Queue.RowOk(s.db.jobs[id], cfg.maxAttempts) && Accepts(s.db, Attempt(s.db, id, world, now, cfg))
    ensures var steps := AttemptSteps(s.db, w, id, world, now, cfg);
      && PipelineRuns.IsRun(s, steps, cfg)
      && PipelineRuns.EndOf(s, steps, cfg) == System(Merge(s.db, Attempt(s.db, id, world, now, cfg), cfg), s.open)
  {
    hide Accepts, Merge, Staged, StageSteps, Queue.RowOk;
    var claimed := After(s, Claim(w, id, now), cfg);
    KindHasDocument(s.db.jobs[id], cfg.maxAttempts);
    var stage := StageSteps(s.db, w, s.db.jobs[id], world);
    StageIsARun(claimed, w, world, cfg);
    var t := Attempt(s.db, id, world, now, cfg);
    assert PipelineRuns.EndOf(claimed, stage, cfg) == System(s.db, s.open[w := t]);
    AppendStep(claimed, stage, Commit(w), cfg);
    assert s.open[w := t] - {w} == s.open;
    var steps := AttemptSteps(s.db, w, id, world, now, cfg);
    assert steps[1..] == stage + [Commit(w)];
  }

  // ---------------------------------------------------------------- what an attempt comes to

  /** Reading the fetch fails with `e`. */
  predicate FailsToRead(f: Documents.Fetched, env: Documents.Env, e: Documents.IngestError) {
    env.detect(f) == Err(e) || (env.detect(f).Ok? && env.parse(f.raw, env.detect(f).value) == Err(e))
  }

  ghost predicate IngestMeets(db: Database, world: World, kind: ErrorKind, cfg: Config) {
    match world.fetch
    case Err(k) => k == kind
    case Ok(f) =>
      && (forall d | d in db.documents :: db.documents[d].raw != f.raw)
      && exists e :: FailsToRead(f, cfg.env, e) && KindOf(e) == kind
  }

  predicate AlreadyComplete(db: Database, document: Id, identity: Identity) {
    exists e | e in db.extractions ::
      db.extractions[e].Complete? && db.extractions[e].document == document && db.extractions[e].identity == identity
  }

  predicate ExtractMeets(db: Database, document: Id, world: World, kind: ErrorKind) {
    match world.client
    case Err(k) => k == kind
    case Ok(identity) =>
      && !AlreadyComplete(db, document, identity)
      && if document in db.documents then world.model.ModelError? && world.model.kind == kind else kind == Unexpected
  }

  /** The attempt ends on a stage error of this kind: a failed fetch or reading, a missing
      client or document, or a failed model call. */
  ghost predicate Meets(db: Database, job: Queue.Job, world: World, kind: ErrorKind, cfg: Config)
    requires (job.kind == Queue.Extract) <==> job.document.Some?
  {
    match job.kind
    case Ingest => IngestMeets(db, world, kind, cfg)
    case Extract => ExtractMeets(db, job.document.value, world, kind)
  }

  /** The claimed row: an error retries it or dead-letters it, no error completes it. */
  ghost predicate RowOutcome(before: Database, id: Id, row: Queue.Job, world: World, now: Time, cfg: Config)
    requires id in before.jobs && ((before.jobs[id].kind == Queue.Extract) <==> before.jobs[id].document.Some?)
  {
    var job := before.jobs[id];
    && row.attempts == job.attempts + 1 && row.claimedAt == Some(now)
    && (forall kind | Meets(before, job, world, kind, cfg) ::
          && row.lastError.Some? && row.succeededAt == job.succeededAt
          && (row.status == Queue.DeadLetter <==> kind == Permanent || row.attempts >= cfg.maxAttempts)
          && (row.status == Queue.Queued <==> kind != Permanent && row.attempts < cfg.maxAttempts))
    && ((forall kind :: !Meets(before, job, world, kind, cfg)) ==>
          row.status == Queue.Succeeded && row.succeededAt == Some(now) && row.lastError == job.lastError)
  }

  /** An ingest without an error leaves the fetched document and its extract job. */
  ghost predicate IngestLeaves(before: Database, after: Database, id: Id, world: World, now: Time, cfg: Config)
    requires id in before.jobs
  {
    && after.extractions == before.extractions && after.reviews == before.reviews
    && if exists kind :: IngestMeets(before, world, kind, cfg) then
         after.documents == before.documents && after.jobs.Keys == before.jobs.Keys
       else
         && world.fetch.Ok? && after.jobs.Keys == before.jobs.Keys + {world.jobId} && world.jobId !in before.jobs
         && after.jobs[world.jobId].document.Some?
         && var d := after.jobs[world.jobId].document.value;
         && after.jobs[world.jobId] == Queue.NewJob(before.jobs[id].source, Queue.Extract, Some(d), now)
         && Documents.IngestOutcome(before.documents, after.documents, d, world.fetch.value, cfg.env,
                                    before.jobs[id].source, world.documentId, now)
  }

  /** An extraction leaves a complete row for an answer, a failed one for a failed call, and
      nothing for a document already extracted, a missing one, or a missing client.  The rows to
      review of an answer are added and followed by a routing pass. */
  ghost predicate ExtractLeaves(before: Database, after: Database, document: Id, world: World, now: Time, cfg: Config) {
    && after.documents == before.documents && after.jobs.Keys == before.jobs.Keys
    && if || world.client.Err? || AlreadyComplete(before, document, world.client.value)
          || document !in before.documents then
         after.extractions == before.extractions && after.reviews == before.reviews
       else
         var (e, identity) := (world.extractionId, world.client.value);
         && e !in before.extractions
         && match world.model
            case Answer(record, confidence) =>
              && after.extractions == before.extractions[e := Complete(document, identity, record, confidence)]
              && Review.CanInsert(before.reviews, e, world.reviewIds)
              && var added := Review.NewRows(e, world.reviewIds, record, confidence, now);
              after.reviews == Review.Route(before.reviews + added, cfg.floor, cfg.budget, now)
            case ModelError(kind, _) =>
              && after.extractions == before.extractions[e := Failed(document, identity, kind)]
              && after.reviews == before.reviews
  }

  /** What a committed attempt comes to, in terms of what it met. */
  ghost predicate AttemptOutcome(before: Database, after: Database, id: Id, world: World, now: Time, cfg: Config)
    requires id in before.jobs && ((before.jobs[id].kind == Queue.Extract) <==> before.jobs[id].document.Some?)
  {
    && id in after.jobs && RowOutcome(before, id, after.jobs[id], world, now, cfg)
    && after.sources == before.sources
    && (forall j | j in before.jobs && j != id :: j in after.jobs && after.jobs[j] == before.jobs[j])
    && match before.jobs[id].kind
       case Ingest => IngestLeaves(before, after, id, world, now, cfg)
       case Extract => ExtractLeaves(before, after, before.jobs[id].document.value, world, now, cfg)
  }

  lemma CompleteAlready(db: Database, document: Id, identity: Identity)
    ensures AlreadyComplete(db, document, identity) <==> HasComplete(db.extractions, document, identity)
  {
    if e :| IsComplete(db.extractions, e, document, identity) {
      assert e in db.extractions;
    }
    if AlreadyComplete(db, document, identity) {
      var e :| e in db.extractions && db.extractions[e].Complete?
               && db.extractions[e].document == document && db.extractions[e].identity == identity;
      assert IsComplete(db.extractions, e, document, identity);
    }
  }

  /** How the stage of an ingest ends, by the error it meets. */
  lemma IngestEndsAsMet(db: Database, job: Queue.Job, world: World, now: Time, cfg: Config)
    requires Documents.TableOk(db.documents, cfg.env)
    ensures var e := StagedIngest(db.documents, job, world, now, cfg);
      && (forall kind | IngestMeets(db, world, kind, cfg) ::
            e.document.None? && e.newJob.None? && e.extraction.None?
            && (e.ending.PermanentFailure? <==> kind == Permanent) && e.ending != Queue.Success)
      && ((forall kind :: !IngestMeets(db, world, kind, cfg)) ==>
            && world.fetch.Ok?
            && var plan := Documents.Plan(db.documents, world.fetch.value, cfg.env, job.source, world.documentId, now);
            plan.Ok? && e == Ingested(plan.value, world.jobId))
  {
    if world.fetch.Ok? {
      var f := world.fetch.value;
      StoredBytes(db.documents, f.raw, cfg.env);
      hide Documents.TableOk, Documents.WithText;
      var read := Documents.Read(f, cfg.env);
      if read.Err? {
        assert FailsToRead(f, cfg.env, read.error);
        assert Documents.WithBytes(db.documents, f.raw).None? ==> IngestMeets(db, world, KindOf(read.error), cfg);
      }
    } else {
      assert IngestMeets(db, world, world.fetch.error, cfg);
    }
  }

  lemma StoredBytes(docs: Documents.Table, raw: Documents.Bytes, env: Documents.Env)
    requires Documents.TableOk(docs, env)
    ensures Documents.WithBytes(docs, raw).None? <==> forall d | d in docs :: docs[d].raw != raw
  {
    forall d | d in docs ensures docs[d].contentHash == Documents.ContentHash(docs[d].raw) {
      assert Documents.RowOk(docs[d], env);
    }
  }

  lemma ExtractEndsAsMet(db: Database, document: Id, world: World)
    ensures var e := StagedExtract(db.extractions, db.documents, document, world);
      && (forall kind | ExtractMeets(db, document, world, kind) ::
            (e.ending.PermanentFailure? <==> kind == Permanent) && e.ending != Queue.Success)
      && ((forall kind :: !ExtractMeets(db, document, world, kind)) ==> e.ending == Queue.Success)
  {
    if world.client.Ok? {
      CompleteAlready(db, document, world.client.value);
      hide AlreadyComplete, HasComplete;
      assert world.model.ModelError? && document in db.documents
             && !AlreadyComplete(db, document, world.client.value) ==>
          ExtractMeets(db, document, world, world.model.kind);
      assert document !in db.documents && !AlreadyComplete(db, document, world.client.value) ==>
          ExtractMeets(db, document, world, Unexpected);
    } else {
      assert ExtractMeets(db, document, world, world.client.error);
    }
  }

  // ----------------------------------------------------------------------- the session

  datatype StageResult =
    | Done
    | Raised(ending: Queue.Ending)
    | DatabaseError

  class Session {
    var db: Database
    const cfg: Config

    constructor (db: Database, cfg: Config)
      ensures this.db == db && this.cfg == cfg
    {
      this.db := db;
      this.cfg := cfg;
    }

    // ------------------------------------------------------------------------- queue

    method Enqueue(jobId: Id, source: Id, kind: Queue.Kind, document: Option<Id>, now: Time)
      returns (ok: bool)
      modifies this`db
      ensures ok <==> ((kind == Queue.Extract) == document.Some?) && jobId !in old(db.jobs)
      ensures ok ==> db == old(db).(jobs := old(db).jobs[jobId := Queue.NewJob(source, kind, document, now)])
      ensures !ok ==> db == old(db)
    {
      if (kind == Queue.Extract) != document.Some? || jobId in db.jobs {
        return false;
      }
      db := db.(jobs := db.jobs[jobId := Queue.Job(source, kind, document, Queue.Queued, 0, now, None, None, None)]);
      ok := true;
    }

    /** Claims the oldest available row that no other transaction has locked. */
    method ClaimOne(locked: set<Id>, now: Time) returns (claimed: Option<Id>)
      modifies this`db
      ensures claimed.None? ==>
        db == old(db) && forall id | id in db.jobs :: !Queue.Claimable(db.jobs, locked, id, now, cfg.timeout)
      ensures claimed.Some? ==>
        && Queue.IsOldest(old(db).jobs, locked, claimed.value, now, cfg.timeout)
        && db == old(db).(jobs := old(db).jobs[claimed.value := Queue.Claim(old(db).jobs[claimed.value], now)])
    {
      var candidates := set id | id in db.jobs && Queue.Claimable(db.jobs, locked, id, now, cfg.timeout);
      assert forall id | id in db.jobs && Queue.Claimable(db.jobs, locked, id, now, cfg.timeout) :: id in candidates;
      if candidates == {} {
        return None;
      }
      ghost var some := Queue.SomeOldest(db.jobs, candidates);
      var id :| id in candidates && forall other | other in candidates ::
          db.jobs[id].createdAt <= db.jobs[other].createdAt;
      var job := db.jobs[id];
      db := db.(jobs := db.jobs[id :=
          job.(status := Queue.Running, claimedAt := Some(now), attempts := job.attempts + 1)]);
      claimed := Some(id);
    }

    method MarkSucceeded(id: Id, now: Time)
      modifies this`db
      ensures db == if id in old(db).jobs
                    then old(db).(jobs := old(db).jobs[id := Queue.MarkSucceeded(old(db).jobs[id], now)])
                    else old(db)
    {
      if id in db.jobs {
        db := db.(jobs := db.jobs[id := db.jobs[id].(status := Queue.Succeeded, succeededAt := Some(now))]);
      }
    }

    method MarkFailed(id: Id, error: string, permanent: bool)
      modifies this`db
      ensures db == if id in old(db).jobs
                    then old(db).(jobs :=
                        old(db).jobs[id := Queue.MarkFailed(old(db).jobs[id], error, permanent, cfg.maxAttempts)])
                    else old(db)
    {
      if id !in db.jobs {
        return;
      }
      var job := db.jobs[id];
      if permanent {
        db := db.(jobs := db.jobs[id := job.(status := Queue.DeadLetter, lastError := Some(error))]);
        return;
      }
      var next := if job.attempts >= cfg.maxAttempts then Queue.DeadLetter else Queue.Queued;
      db := db.(jobs := db.jobs[id := job.(status := next, lastError := Some(error))]);
    }

    // ------------------------------------------------------------------------ ingest

    /** Fetch, compare bytes, read, compare text, then keep, move or insert one document. */
    method IngestSource(f: Documents.Fetched, source: Id, newId: Id, now: Time)
      returns (r: Result<Id, Documents.Refusal>)
      requires Documents.TableOk(db.documents, cfg.env)
      modifies this`db
      ensures r.Err? ==> db == old(db)
      ensures r.Ok? ==>
        && db == old(db).(documents := db.documents)
        && Documents.IngestOutcome(old(db).documents, db.documents, r.value, f, cfg.env, source, newId, now)
      ensures var plan := Documents.Plan(old(db).documents, f, cfg.env, source, newId, now);
        match plan
        case Err(e) => r == Err(Documents.Failed(e))
        case Ok(w) =>
          if Documents.Accepts(old(db).documents, w) then
            r == Ok(w.id) && db == old(db).(documents := Documents.Perform(old(db).documents, w))
          else r == Err(Documents.DatabaseRefused)
    {
      hide Documents.Plan, Documents.Accepts, Documents.TableOk, Documents.IngestOutcome, Documents.Perform,
           Documents.NewDocument;
      Documents.PlanHasOutcome(db.documents, f, cfg.env, source, newId, now);
      var contentHash := Documents.ContentHash(f.raw);
      var sameBytes := set id | id in db.documents && db.documents[id].contentHash == contentHash;
      assert forall id | id in db.documents && db.documents[id].contentHash == contentHash :: id in sameBytes;
      if sameBytes != {} {
        var id :| id in sameBytes;
        Documents.PlanOfStoredBytes(db.documents, id, f, cfg.env, source, newId, now);
        return Ok(id);
      }
      Documents.PlanOfUnread(db.documents, f, cfg.env, source, newId, now);
      var format := cfg.env.detect(f);
      if format.Err? {
        return Err(Documents.Failed(format.error));
      }
      var parsed := cfg.env.parse(f.raw, format.value);
      if parsed.Err? {
        return Err(Documents.Failed(parsed.error));
      }
      var textHash := Documents.TextHash(parsed.value.text);
      var sameText := set id | id in db.documents && db.documents[id].textHash == textHash;
      assert forall id | id in db.documents && db.documents[id].textHash == textHash :: id in sameText;
      if sameText != {} {
        var id :| id in sameText;
        Documents.PlanOfStoredText(db.documents, id, f, cfg.env, source, newId, now);
        db := db.(documents := db.documents[id :=
          db.documents[id].(url := f.url, fetchedAt := now, contentHash := contentHash, raw := f.raw)]);
        return Ok(id);
      }
      Documents.PlanOfNewText(db.documents, f, cfg.env, source, newId, now);
      if newId in db.documents {
        return Err(Documents.DatabaseRefused);
      }
      db := db.(documents := db.documents[newId :=
        Documents.Document(source, f.url, contentHash, textHash, format.value, now, f.raw, parsed.value.text,
                           parsed.value.title, now)]);
      r := Ok(newId);
    }

    method ProcessIngest(job: Queue.Job, world: World, now: Time) returns (result: StageResult)
      requires Documents.TableOk(db.documents, cfg.env)
      modifies this`db
      ensures (exists kind :: IngestMeets(old(db), world, kind, cfg)) <==> result.Raised?
      ensures forall kind | IngestMeets(old(db), world, kind, cfg) ::
                result.Raised? && (result.ending.PermanentFailure? <==> kind == Permanent)
      ensures var e := StagedIngest(old(db).documents, job, world, now, cfg);
        && (result.Raised? ==> e == Ended(result.ending) && e.ending != Queue.Success && db == old(db))
        && (result.DatabaseError? <==>
              e.document.Some?
              && (!Documents.Accepts(old(db).documents, e.document.value) || world.jobId in old(db).jobs))
        && (result.Done? ==>
              && e.document.Some?
              && db == old(db).(documents := Documents.Perform(old(db).documents, e.document.value),
                                jobs := old(db).jobs[world.jobId :=
                                  Queue.NewJob(job.source, Queue.Extract, Some(e.document.value.id), now)]))
    {
      hide IngestMeets, Documents.TableOk;
      IngestEndsAsMet(db, job, world, now, cfg);
      if world.fetch.Err? {
        return Raised(EndingOf(world.fetch.error, "fetch"));
      }
      var ingested := IngestSource(world.fetch.value, job.source, world.documentId, now);
      if ingested.Err? {
        return if ingested.error == Documents.DatabaseRefused then DatabaseError
               else Raised(IngestEnding(ingested.error.error));
      }
      var ok := Enqueue(world.jobId, job.source, Queue.Extract, Some(ingested.value), now);
      result := if ok then Done else DatabaseError;
    }

    // ----------------------------------------------------------------------- extract

    /** Idempotent extraction: check, run the model, insert a complete row with its reviews
        and a routing pass, or a failed row before the error goes on. */
    method ProcessExtract(job: Queue.Job, world: World, now: Time) returns (result: StageResult)
      requires job.kind == Queue.Extract && job.document.Some?
      modifies this`db
      ensures result.Done? ==> forall kind :: !ExtractMeets(old(db), job.document.value, world, kind)
      ensures forall kind | ExtractMeets(old(db), job.document.value, world, kind) ::
                !result.Done? && (result.Raised? ==> (result.ending.PermanentFailure? <==> kind == Permanent))
      ensures var e := StagedExtract(old(db).extractions, old(db).documents, job.document.value, world);
        var t := Txn(0, job, now, Finished(e));
        && (result.DatabaseError? <==> !Accepts(old(db), t))
        && (result.Raised? ==> e.ending == result.ending && e.ending != Queue.Success)
        && (result.Done? ==> e.ending == Queue.Success)
        && (!result.DatabaseError? ==>
              db == old(db).(extractions := ExtractionsAfter(old(db).extractions, t),
                             reviews := Review.Run(old(db).reviews, ReviewEvents(t, cfg), cfg.validate)))
    {
      if world.client.Err? {
        return Raised(EndingOf(world.client.error, "client"));
      }
      var document, identity := job.document.value, world.client.value;
      var existing := set e | e in db.extractions && IsComplete(db.extractions, e, document, identity);
      assert existing != {} <==> HasComplete(db.extractions, document, identity) by {
        assert forall e | IsComplete(db.extractions, e, document, identity) :: e in existing;
      }
      if existing != {} {
        return Done;
      }
      if document !in db.documents {
        return Raised(Queue.TransientFailure("document does not exist"));
      }
      match world.model
      case ModelError(kind, error) =>
        if world.extractionId in db.extractions {
          return DatabaseError;
        }
        db := db.(extractions := db.extractions[world.extractionId := Failed(document, identity, kind)]);
        result := Raised(EndingOf(kind, error));
      case Answer(record, confidence) =>
        if world.extractionId in db.extractions
           || !Review.CanInsert(db.reviews, world.extractionId, world.reviewIds) {
          return DatabaseError;
        }
        ghost var insert := Review.Extracted(world.extractionId, world.reviewIds, record, confidence, now);
        PipelineSafety.RunOfTwo(db.reviews, insert, Review.Pass(cfg.floor, cfg.budget, now), cfg);
        db := db.(extractions :=
            db.extractions[world.extractionId := Complete(document, identity, record, confidence)]);
        db := db.(reviews := db.reviews + Review.NewRows(world.extractionId, world.reviewIds, record, confidence, now));
        db := db.(reviews := Review.Route(db.reviews, cfg.floor, cfg.budget, now));
        result := Done;
    }

    // ---------------------------------------------------------------------- run_once

    method ProcessJob(job: Queue.Job, world: World, now: Time) returns (result: StageResult)
      requires Documents.TableOk(db.documents, cfg.env)
      requires (job.kind == Queue.Extract) <==> job.document.Some?
      modifies this`db
      ensures var e := Staged(old(db), job, world, now, cfg);
        var t := Txn(0, job, now, Finished(e));
        && (result.DatabaseError? <==> !Accepts(old(db), t))
        && (result.Raised? ==> e.ending == result.ending && e.ending != Queue.Success && e.document.None?)
        && (result.Done? ==> e.ending == Queue.Success)
        && (!result.DatabaseError? ==>
              db == Merge(old(db), t, cfg).(jobs := if e.document.Some? && e.newJob.Some?
                                                    then old(db).jobs[e.newJob.value := EnqueuedJob(t)]
                                                    else old(db).jobs))
    {
      hide Documents.Plan, Documents.Accepts, Documents.Perform, Documents.TableOk, Review.CanInsert, HasComplete,
           Queue.Conclude, Queue.NewJob, EndingOf, IngestEnding, Review.Apply;
      match job.kind
      case Ingest => result := ProcessIngest(job, world, now);
      case Extract => result := ProcessExtract(job, world, now);
    }

    /** One worker iteration in one transaction: claim, process, mark; a database error
        rolls everything back, the claim included. */
    method RunOnce(locked: set<Id>, world: World, now: Time) returns (claimed: Option<Id>, committed: bool)
      requires DatabaseOk(db, cfg)
      modifies this`db
      ensures DatabaseOk(db, cfg)
      ensures claimed.None? ==>
        db == old(db) && !committed && forall id | id in db.jobs ::
            !Queue.Claimable(db.jobs, locked, id, now, cfg.timeout)
      ensures claimed.Some? ==>
        && Queue.IsOldest(old(db).jobs, locked, claimed.value, now, cfg.timeout)
        && Queue.RowOk(old(db).jobs[claimed.value], cfg.maxAttempts)
        && (committed <==> Accepts(old(db), Attempt(old(db), claimed.value, world, now, cfg)))
        && db == (if committed then Merge(old(db), Attempt(old(db), claimed.value, world, now, cfg), cfg) else old(db))
        && (committed ==> AttemptOutcome(old(db), db, claimed.value, world, now, cfg))
    {
      hide AttemptOutcome, Accepts, Staged, StagedIngest, StagedExtract, DatabaseOk;
      var saved := db;
      claimed := ClaimOne(locked, now);
      if claimed.None? {
        return None, false;
      }
      var id := claimed.value;
      assert Queue.RowOk(saved.jobs[id], cfg.maxAttempts) && Documents.TableOk(saved.documents, cfg.env) by {
        DatabaseFacts(saved, id, cfg);
      }
      Queue.OnlyQueuedIsAvailable(saved.jobs[id], now, cfg.timeout, cfg.maxAttempts);
      ghost var t := Attempt(saved, id, world, now, cfg);
      ghost var atClaim := db;
      var result := ProcessJob(db.jobs[id], world, now);
      StagedIgnoresJobs(saved, atClaim, t, world, cfg);
      if result.DatabaseError? {
        db := saved;
        return claimed, false;
      }
      MarkCompletesMerge(saved, t, cfg);
      if result.Raised? {
        MarkFailed(id, result.ending.error, result.ending.PermanentFailure?);
      } else {
        MarkSucceeded(id, now);
      }
      AttemptIsOk(saved, id, world, now, cfg);
      AttemptHasOutcome(saved, id, world, now, cfg);
      committed := true;
    }
  }

  lemma DatabaseFacts(db: Database, id: Id, cfg: Config)
    requires DatabaseOk(db, cfg) && id in db.jobs
    ensures Queue.RowOk(db.jobs[id], cfg.maxAttempts) && Documents.TableOk(db.documents, cfg.env)
  {
  }

  /** Marking the claimed row after the stage's writes gives the committed job table. */
  lemma MarkCompletesMerge(db: Database, t: Txn, cfg: Config)
    requires t.job in db.jobs && db.jobs[t.job] == t.before && t.phase.Finished? && Accepts(db, t)
    ensures var e, claimed := t.phase.effects, Queue.Claim(t.before, t.now);
      var staged := db.jobs[t.job := claimed];
      var inside := if e.document.Some? && e.newJob.Some? then staged[e.newJob.value := EnqueuedJob(t)] else staged;
      var marked := match e.ending
                    case Success => Queue.MarkSucceeded(claimed, t.now)
                    case TransientFailure(error) => Queue.MarkFailed(claimed, error, false, cfg.maxAttempts)
                    case PermanentFailure(error) => Queue.MarkFailed(claimed, error, true, cfg.maxAttempts);
      t.job in inside && inside[t.job] == claimed && inside[t.job := marked] == JobsAfter(db.jobs, t, cfg)
  {
  }

  /** The stage sees the same tables before and after the claim, apart from the claimed row. */
  lemma StagedIgnoresJobs(saved: Database, atClaim: Database, t: Txn, world: World, cfg: Config)
    requires t.job in saved.jobs && saved.jobs[t.job] == t.before
    requires (t.before.kind == Queue.Extract) <==> t.before.document.Some?
    requires atClaim == saved.(jobs := saved.jobs[t.job := Queue.Claim(t.before, t.now)])
    requires t.phase == Finished(Staged(saved, t.before, world, t.now, cfg))
    ensures var inside :=
        Txn(0, atClaim.jobs[t.job], t.now, Finished(Staged(atClaim, atClaim.jobs[t.job], world, t.now, cfg)));
      && inside.phase == t.phase
      && (Accepts(atClaim, inside) <==> Accepts(saved, t))
      && DocumentsAfter(atClaim.documents, inside) == DocumentsAfter(saved.documents, t)
      && ExtractionsAfter(atClaim.extractions, inside) == ExtractionsAfter(saved.extractions, t)
      && ReviewEvents(inside, cfg) == ReviewEvents(t, cfg)
      && (t.phase.effects.document.Some? ==> EnqueuedJob(inside) == EnqueuedJob(t))
  {
  }

  lemma IngestEffectsOk(db: Database, job: Queue.Job, world: World, now: Time, cfg: Config)
    requires Documents.TableOk(db.documents, cfg.env) && job.kind == Queue.Ingest
    ensures EffectsOk(db, job, StagedIngest(db.documents, job, world, now, cfg), cfg)
  {
    hide Documents.Plan, Documents.Sound, Documents.TableOk;
    if world.fetch.Ok? {
      Documents.PlanIsSound(db.documents, world.fetch.value, cfg.env, job.source, world.documentId, now);
    }
  }

  lemma ExtractEffectsOk(db: Database, job: Queue.Job, world: World, cfg: Config)
    requires job.kind == Queue.Extract && job.document.Some?
    ensures EffectsOk(db, job, StagedExtract(db.extractions, db.documents, job.document.value, world), cfg)
  {
    hide HasComplete;
  }

  lemma AttemptTxnOk(db: Database, id: Id, world: World, now: Time, cfg: Config)
    requires DatabaseOk(db, cfg) && id in db.jobs && Queue.RowOk(db.jobs[id], cfg.maxAttempts)
    requires db.jobs[id].status == Queue.Queued
    ensures TxnOk(db, Attempt(db, id, world, now, cfg), cfg)
  {
    hide DatabaseOk, Documents.TableOk, EffectsOk, StagedIngest, StagedExtract;
    PipelineSafety.DocumentsAreOk(db, cfg);
    if db.jobs[id].kind == Queue.Ingest {
      IngestEffectsOk(db, db.jobs[id], world, now, cfg);
    } else {
      ExtractEffectsOk(db, db.jobs[id], world, cfg);
    }
  }

  /** What an uninterrupted attempt commits satisfies the invariant of the protocol. */
  lemma AttemptIsOk(db: Database, id: Id, world: World, now: Time, cfg: Config)
    requires DatabaseOk(db, cfg) && id in db.jobs && Queue.RowOk(db.jobs[id], cfg.maxAttempts)
    requires db.jobs[id].status == Queue.Queued && Accepts(db, Attempt(db, id, world, now, cfg))
    ensures DatabaseOk(Merge(db, Attempt(db, id, world, now, cfg), cfg), cfg)
  {
    hide DatabaseOk, TxnOk, Staged, Accepts, Merge;
    AttemptTxnOk(db, id, world, now, cfg);
    PipelineSafety.CommitKeepsDatabase(db, Attempt(db, id, world, now, cfg), cfg);
  }

  /** The row of an attempt, by how its stage ended. */
  lemma RowEndsAsMet(db: Database, id: Id, world: World, now: Time, cfg: Config, ending: Queue.Ending)
    requires id in db.jobs && Queue.RowOk(db.jobs[id], cfg.maxAttempts) && db.jobs[id].status == Queue.Queued
    requires forall kind | Meets(db, db.jobs[id], world, kind, cfg) ::
               (ending.PermanentFailure? <==> kind == Permanent) && ending != Queue.Success
    requires (forall kind :: !Meets(db, db.jobs[id], world, kind, cfg)) ==> ending == Queue.Success
    ensures RowOutcome(db, id, Queue.Conclude(db.jobs[id], ending, now, cfg.maxAttempts), world, now, cfg)
  {
    Queue.ConcludeKeepsRow(db.jobs[id], ending, now, cfg.maxAttempts);
    hide Meets;
  }

  lemma IngestAttemptLeaves(db: Database, id: Id, world: World, now: Time, cfg: Config)
    requires Documents.TableOk(db.documents, cfg.env) && id in db.jobs && Queue.RowOk(db.jobs[id], cfg.maxAttempts)
    requires db.jobs[id].kind == Queue.Ingest && Accepts(db, Attempt(db, id, world, now, cfg))
    ensures IngestLeaves(db, Merge(db, Attempt(db, id, world, now, cfg), cfg), id, world, now, cfg)
  {
    hide Documents.TableOk, IngestMeets, Documents.Plan, Documents.IngestOutcome, Documents.Accepts;
    var job := db.jobs[id];
    IngestEndsAsMet(db, job, world, now, cfg);
    var e := StagedIngest(db.documents, job, world, now, cfg);
    hide StagedIngest;
    if forall kind :: !IngestMeets(db, world, kind, cfg) {
      Documents.PlanHasOutcome(db.documents, world.fetch.value, cfg.env, job.source, world.documentId, now);
    }
  }

  lemma ExtractAttemptLeaves(db: Database, id: Id, world: World, now: Time, cfg: Config)
    requires id in db.jobs && Queue.RowOk(db.jobs[id], cfg.maxAttempts)
    requires db.jobs[id].kind == Queue.Extract && Accepts(db, Attempt(db, id, world, now, cfg))
    ensures ExtractLeaves(db, Merge(db, Attempt(db, id, world, now, cfg), cfg), db.jobs[id].document.value,
                          world, now, cfg)
  {
    assert Review.Run(db.reviews, [], cfg.validate) == db.reviews;
    hide AlreadyComplete, HasComplete, Review.CanInsert, Review.NewRows, Review.Route, Review.Run;
    if world.client.Ok? {
      CompleteAlready(db, db.jobs[id].document.value, world.client.value);
      if world.model.Answer? {
        var (record, confidence) := (world.model.record, world.model.confidence);
        var insert := Review.Extracted(world.extractionId, world.reviewIds, record, confidence, now);
        PipelineSafety.RunOfTwo(db.reviews, insert, Review.Pass(cfg.floor, cfg.budget, now), cfg);
      }
    }
  }

  /** What a committed attempt comes to. */
  lemma AttemptHasOutcome(db: Database, id: Id, world: World, now: Time, cfg: Config)
    requires DatabaseOk(db, cfg) && id in db.jobs && Queue.RowOk(db.jobs[id], cfg.maxAttempts)
    requires db.jobs[id].status == Queue.Queued && Accepts(db, Attempt(db, id, world, now, cfg))
    ensures AttemptOutcome(db, Merge(db, Attempt(db, id, world, now, cfg), cfg), id, world, now, cfg)
  {
    hide DatabaseOk, Documents.TableOk, IngestLeaves, ExtractLeaves, RowOutcome, Staged, Accepts,
         Documents.Perform, Review.Run;
    DatabaseFacts(db, id, cfg);
    AttemptRowOutcome(db, id, world, now, cfg);
    MergedRows(db, Attempt(db, id, world, now, cfg), cfg);
    if db.jobs[id].kind == Queue.Ingest {
      IngestAttemptLeaves(db, id, world, now, cfg);
    } else {
      ExtractAttemptLeaves(db, id, world, now, cfg);
    }
  }

  lemma AttemptRowOutcome(db: Database, id: Id, world: World, now: Time, cfg: Config)
    requires Documents.TableOk(db.documents, cfg.env) && id in db.jobs && Queue.RowOk(db.jobs[id], cfg.maxAttempts)
    requires db.jobs[id].status == Queue.Queued
    ensures var ending := Staged(db, db.jobs[id], world, now, cfg).ending;
      RowOutcome(db, id, Queue.Conclude(db.jobs[id], ending, now, cfg.maxAttempts), world, now, cfg)
  {
    hide Documents.TableOk, RowOutcome, IngestMeets, ExtractMeets, StagedIngest, StagedExtract;
    var job := db.jobs[id];
    if job.kind == Queue.Ingest {
      IngestEndsAsMet(db, job, world, now, cfg);
      assert forall kind :: Meets(db, job, world, kind, cfg) <==> IngestMeets(db, world, kind, cfg);
    } else {
      ExtractEndsAsMet(db, job.document.value, world);
      assert forall kind :: Meets(db, job, world, kind, cfg) <==> ExtractMeets(db, job.document.value, world, kind);
    }
    RowEndsAsMet(db, id, world, now, cfg, Staged(db, job, world, now, cfg).ending);
  }

  /** A commit writes the claimed row and at most one row that was not there. */
  lemma MergedRows(db: Database, t: Txn, cfg: Config)
    requires t.phase.Finished? && t.job in db.jobs && Accepts(db, t)
    ensures var jobs := Merge(db, t, cfg).jobs;
      && t.job in jobs && jobs[t.job] == Queue.Conclude(t.before, t.phase.effects.ending, t.now, cfg.maxAttempts)
      && forall j | j in db.jobs && j != t.job :: j in jobs && jobs[j] == db.jobs[j]
  {
    hide Queue.Conclude, Review.Run;
  }
}

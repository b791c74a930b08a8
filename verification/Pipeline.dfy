/** The worker protocol.  Any number of workers each hold one transaction from the
    claim of a job to its outcome; a transaction reads committed rows, keeps its
    writes private, and either commits them all, if every unique index still
    holds, or leaves no trace. */
module Pipeline {
  import opened Common
  import Queue
  import Documents
  import Review

  /** What identifies a run of the extractor, next to the document. */
  datatype Identity = Identity(schemaVersion: string, provider: string, model: string, thinking: string, runId: string)

  datatype ErrorKind = Transient | Permanent | Unexpected

  datatype Extraction =
    | Complete(document: Id, identity: Identity, record: Review.Record, confidence: Review.Confidence)
    | Failed(document: Id, identity: Identity, kind: ErrorKind)

  datatype Database = Database(
    sources: map<Id, string>,
    jobs: Queue.Table,
    documents: Documents.Table,
    extractions: map<Id, Extraction>,
    reviews: Review.Table
  )

  /** Settings and the two foreign functions, fixed for a run. */
  datatype Config = Config(
    maxAttempts: int,
    timeout: int,
    floor: real,
    budget: Option<nat>,
    env: Documents.Env,
    validate: Review.Validator
  )

  // ---------------------------------------------------------------- transactions

  /** The private writes of a transaction whose stage has ended. */
  datatype Effects = Effects(
    ending: Queue.Ending,
    document: Option<Documents.Write>,
    newJob: Option<Id>,
    extraction: Option<(Id, Extraction)>,
    reviewIds: seq<Id>
  )

  datatype Phase =
    | Claimed
    | Fetched(fetched: Documents.Fetched)
    | Loaded(identity: Identity)
    | Finished(effects: Effects)

  datatype Txn = Txn(job: Id, before: Queue.Job, now: Time, phase: Phase)

  datatype System = System(db: Database, open: map<Id, Txn>)

  function Locked(open: map<Id, Txn>): set<Id> {
    set w | w in open :: open[w].job
  }

  function Ended(ending: Queue.Ending): Effects {
    Effects(ending, None, None, None, [])
  }

  /** A stage error as the worker routes it. */
  function EndingOf(kind: ErrorKind, error: string): Queue.Ending {
    if kind == Permanent then Queue.PermanentFailure(error) else Queue.TransientFailure(error)
  }

  function IngestEnding(e: Documents.IngestError): Queue.Ending {
    if e == Documents.PermanentIngest then Queue.PermanentFailure("ingest") else Queue.TransientFailure("ingest")
  }

  /** The kind of an ingest error. */
  function KindOf(e: Documents.IngestError): (kind: ErrorKind)
    ensures e.PermanentIngest? <==> kind == Permanent
    ensures e.TransientIngest? <==> kind == Transient
  {
    match e
    case PermanentIngest => Permanent
    case TransientIngest => Transient
    case UnexpectedIngest => Unexpected
  }

  /** A stage error dead-letters the job exactly when it is permanent or the budget is spent. */
  lemma StageErrorsAreRouted(job: Queue.Job, kind: ErrorKind, error: string, now: Time, maxAttempts: int)
    requires Queue.RowOk(job, maxAttempts) && job.status == Queue.Queued
    ensures var after := Queue.Conclude(job, EndingOf(kind, error), now, maxAttempts);
      && after.lastError == Some(error)
      && (after.status == Queue.DeadLetter <==> kind == Permanent || after.attempts >= maxAttempts)
      && (after.status == Queue.Queued <==> kind != Permanent && after.attempts < maxAttempts)
  {
  }

  /** So does an error of reading a fetch. */
  lemma IngestErrorsAreRouted(job: Queue.Job, e: Documents.IngestError, now: Time, maxAttempts: int)
    requires Queue.RowOk(job, maxAttempts) && job.status == Queue.Queued
    ensures var after := Queue.Conclude(job, IngestEnding(e), now, maxAttempts);
      && after.lastError.Some?
      && (after.status == Queue.DeadLetter <==> e == Documents.PermanentIngest || after.attempts >= maxAttempts)
      && (after.status == Queue.Queued <==> e != Documents.PermanentIngest && after.attempts < maxAttempts)
  {
  }

  /** An ingest that found or wrote a document also enqueues its extract job. */
  function Ingested(w: Documents.Write, jobId: Id): Effects {
    Effects(Queue.Success, Some(w), Some(jobId), None, [])
  }

  ghost predicate HasComplete(extractions: map<Id, Extraction>, document: Id, identity: Identity) {
    exists e :: IsComplete(extractions, e, document, identity)
  }

  predicate IsComplete(extractions: map<Id, Extraction>, e: Id, document: Id, identity: Identity) {
    e in extractions && extractions[e].Complete?
    && extractions[e].document == document && extractions[e].identity == identity
  }

  // ---------------------------------------------------------------------- commit

  function EnqueuedJob(t: Txn): Queue.Job
    requires t.phase.Finished? && t.phase.effects.document.Some?
  {
    Queue.NewJob(t.before.source, Queue.Extract, Some(t.phase.effects.document.value.id), t.now)
  }

  function JobsAfter(jobs: Queue.Table, t: Txn, cfg: Config): Queue.Table
    requires t.phase.Finished?
  {
    var e := t.phase.effects;
    var done := jobs[t.job := Queue.Conclude(t.before, e.ending, t.now, cfg.maxAttempts)];
    if e.newJob.Some? && e.document.Some? then done[e.newJob.value := EnqueuedJob(t)] else done
  }

  function DocumentsAfter(docs: Documents.Table, t: Txn): Documents.Table
    requires t.phase.Finished?
  {
    if t.phase.effects.document.Some? then Documents.Perform(docs, t.phase.effects.document.value) else docs
  }

  function ExtractionsAfter(extractions: map<Id, Extraction>, t: Txn): map<Id, Extraction>
    requires t.phase.Finished?
  {
    var e := t.phase.effects.extraction;
    if e.Some? then extractions[e.value.0 := e.value.1] else extractions
  }

  /** A complete extraction adds its review rows and is followed by a routing pass. */
  function ReviewEvents(t: Txn, cfg: Config): seq<Review.Event>
    requires t.phase.Finished?
  {
    match t.phase.effects.extraction
    case Some((id, Complete(_, _, record, confidence))) =>
      [ Review.Extracted(id, t.phase.effects.reviewIds, record, confidence, t.now),
        Review.Pass(cfg.floor, cfg.budget, t.now) ]
    case _ => []
  }

  function Merge(db: Database, t: Txn, cfg: Config): Database
    requires t.phase.Finished?
  {
    Database(db.sources, JobsAfter(db.jobs, t, cfg), DocumentsAfter(db.documents, t),
             ExtractionsAfter(db.extractions, t), Review.Run(db.reviews, ReviewEvents(t, cfg), cfg.validate))
  }

  /** Primary keys and unique indexes hold in the merged tables. */
  ghost predicate Accepts(db: Database, t: Txn)
    requires t.phase.Finished?
  {
    var e := t.phase.effects;
    && (e.document.Some? ==> Documents.Accepts(db.documents, e.document.value))
    && (e.newJob.Some? ==> e.newJob.value !in db.jobs)
    && (e.extraction.Some? ==> e.extraction.value.0 !in db.extractions)
    && (e.extraction.Some? && e.extraction.value.1.Complete? ==>
          && !HasComplete(db.extractions, e.extraction.value.1.document, e.extraction.value.1.identity)
          && Review.CanInsert(db.reviews, e.extraction.value.0, e.reviewIds))
  }

  // ----------------------------------------------------------------------- steps

  datatype Step =
    | Register(sourceId: Id, jobId: Id, url: string, at: Time)
    | Claim(worker: Id, job: Id, at: Time)
    | FetchFails(worker: Id, kind: ErrorKind, error: string)
    | CheckBytes(worker: Id, fetched: Documents.Fetched, jobId: Id)
    | CheckText(worker: Id, documentId: Id, jobId: Id)
    | NoClient(worker: Id, kind: ErrorKind, error: string)
    | CheckExtraction(worker: Id, identity: Identity)
    | ModelAnswers(worker: Id, extractionId: Id, reviewIds: seq<Id>, record: Review.Record,
                   confidence: Review.Confidence)
    | ModelFails(worker: Id, extractionId: Id, kind: ErrorKind, error: string)
    | Commit(worker: Id)
    | Abort(worker: Id)
    | Decide(reviewId: Id, action: Review.Action, reviewer: Option<string>, note: Option<string>, at: Time)
    | RoutePass(at: Time)

  predicate InPhase(s: System, w: Id, kind: Queue.Kind) {
    w in s.open && s.open[w].before.kind == kind
  }

  /** An extract job names its document (the constraint `jobs_extract_has_document`). */
  predicate InExtract(s: System, w: Id) {
    InPhase(s, w, Queue.Extract) && s.open[w].before.document.Some?
  }

  ghost predicate Enabled(s: System, step: Step, cfg: Config) {
    match step
    case Register(sourceId, jobId, _, _) => sourceId !in s.db.sources && jobId !in s.db.jobs
    case Claim(w, job, at) =>
      w !in s.open && Queue.IsOldest(s.db.jobs, Locked(s.open), job, at, cfg.timeout)
    case FetchFails(w, _, _) => InPhase(s, w, Queue.Ingest) && s.open[w].phase.Claimed?
    case CheckBytes(w, _, _) => InPhase(s, w, Queue.Ingest) && s.open[w].phase.Claimed?
    case CheckText(w, _, _) => InPhase(s, w, Queue.Ingest) && s.open[w].phase.Fetched?
    case NoClient(w, _, _) => InExtract(s, w) && s.open[w].phase.Claimed?
    case CheckExtraction(w, _) => InExtract(s, w) && s.open[w].phase.Claimed?
    case ModelAnswers(w, _, _, _, _) => InExtract(s, w) && s.open[w].phase.Loaded?
    case ModelFails(w, _, _, _) => InExtract(s, w) && s.open[w].phase.Loaded?
    case Commit(w) => w in s.open && s.open[w].phase.Finished? && Accepts(s.db, s.open[w])
    case Abort(w) => w in s.open
    case Decide(_, _, _, _, _) => true
    case RoutePass(_) => true
  }

  function Move(s: System, w: Id, phase: Phase): System
    requires w in s.open
  {
    s.(open := s.open[w := s.open[w].(phase := phase)])
  }

  function WithReviews(s: System, e: Review.Event, cfg: Config): System {
    s.(db := s.db.(reviews := Review.Apply(s.db.reviews, e, cfg.validate)))
  }

  ghost function After(s: System, step: Step, cfg: Config): System
    requires Enabled(s, step, cfg)
  {
    match step
    case Register(sourceId, jobId, url, at) =>
      s.(db := s.db.(sources := s.db.sources[sourceId := url],
                     jobs := s.db.jobs[jobId := Queue.NewJob(sourceId, Queue.Ingest, None, at)]))
    case Claim(w, job, at) => s.(open := s.open[w := Txn(job, s.db.jobs[job], at, Claimed)])
    case FetchFails(w, kind, error) => Move(s, w, Finished(Ended(EndingOf(kind, error))))
    case CheckBytes(w, fetched, jobId) =>
      (match Documents.WithBytes(s.db.documents, fetched.raw)
       case Some(id) => Move(s, w, Finished(Ingested(Documents.Keep(id), jobId)))
       case None => Move(s, w, Fetched(fetched)))
    case CheckText(w, documentId, jobId) =>
      var t := s.open[w];
      (match Documents.PlanByText(s.db.documents, t.phase.fetched, cfg.env, t.before.source, documentId, t.now)
       case Err(e) => Move(s, w, Finished(Ended(IngestEnding(e))))
       case Ok(write) => Move(s, w, Finished(Ingested(write, jobId))))
    case NoClient(w, kind, error) => Move(s, w, Finished(Ended(EndingOf(kind, error))))
    case CheckExtraction(w, identity) =>
      var document := s.open[w].before.document.value;
      if HasComplete(s.db.extractions, document, identity) then Move(s, w, Finished(Ended(Queue.Success)))
      else if document in s.db.documents then Move(s, w, Loaded(identity))
      else Move(s, w, Finished(Ended(Queue.TransientFailure("document does not exist"))))
    case ModelAnswers(w, extractionId, reviewIds, record, confidence) =>
      var t := s.open[w];
      var row := Complete(t.before.document.value, t.phase.identity, record, confidence);
      Move(s, w, Finished(Effects(Queue.Success, None, None, Some((extractionId, row)), reviewIds)))
    case ModelFails(w, extractionId, kind, error) =>
      var t := s.open[w];
      var row := Failed(t.before.document.value, t.phase.identity, kind);
      Move(s, w, Finished(Effects(EndingOf(kind, error), None, None, Some((extractionId, row)), [])))
    case Commit(w) => System(Merge(s.db, s.open[w], cfg), s.open - {w})
    case Abort(w) => s.(open := s.open - {w})
    case Decide(id, action, reviewer, note, at) =>
      WithReviews(s, Review.Act(id, action, reviewer, note, at), cfg)
    case RoutePass(at) => WithReviews(s, Review.Pass(cfg.floor, cfg.budget, at), cfg)
  }

  // ------------------------------------------------------------------- invariant

  ghost predicate JobsOk(db: Database, cfg: Config) {
    forall j | j in db.jobs ::
      && Queue.RowOk(db.jobs[j], cfg.maxAttempts)
      && (db.jobs[j].document.Some? ==> db.jobs[j].document.value in db.documents)
  }

  predicate Extracts(jobs: Queue.Table, j: Id, document: Id) {
    j in jobs && jobs[j].kind == Queue.Extract && jobs[j].document == Some(document)
  }

  /** Every document has an extract job. */
  ghost predicate DocumentsHaveJobs(db: Database) {
    forall d | d in db.documents :: exists j :: Extracts(db.jobs, j, d)
  }

  ghost predicate ExtractionsOk(db: Database) {
    && (forall e | e in db.extractions :: db.extractions[e].document in db.documents)
    && (forall a, b, document, identity |
          IsComplete(db.extractions, a, document, identity) && IsComplete(db.extractions, b, document, identity) ::
          a == b)
  }

  predicate Reviews(reviews: Review.Table, r: Id, e: Id, f: Review.Field) {
    r in reviews && reviews[r].extraction == e && reviews[r].field == f
  }

  ghost predicate HasReview(reviews: Review.Table, e: Id, f: Review.Field) {
    exists r :: Reviews(reviews, r, e, f)
  }

  /** A complete extraction has a review row for every field, a row belongs to a complete
      extraction, and its copy of the model's value and confidence is that of the record. */
  ghost predicate ReviewsMatch(extractions: map<Id, Extraction>, reviews: Review.Table) {
    && (forall e | e in extractions && extractions[e].Complete? ::
          forall f: Review.Field :: HasReview(reviews, e, f))
    && (forall r | r in reviews ::
          && reviews[r].extraction in extractions && extractions[reviews[r].extraction].Complete?
          && reviews[r].modelValue == extractions[reviews[r].extraction].record[reviews[r].field]
          && reviews[r].confidence == extractions[reviews[r].extraction].confidence[reviews[r].field])
  }

  ghost predicate DatabaseOk(db: Database, cfg: Config) {
    && JobsOk(db, cfg)
    && Documents.TableOk(db.documents, cfg.env)
    && DocumentsHaveJobs(db)
    && ExtractionsOk(db)
    && Review.TableOk(db.reviews, cfg.validate)
    && ReviewsMatch(db.extractions, db.reviews)
  }

  /** What a transaction may rely on while others commit: its job row is as it claimed it,
      and the documents it refers to are still there with the same text. */
  ghost predicate TxnOk(db: Database, t: Txn, cfg: Config) {
    && t.job in db.jobs && db.jobs[t.job] == t.before && t.before.status == Queue.Queued
    && match t.phase
       case Claimed => true
       case Fetched(_) => t.before.kind == Queue.Ingest
       case Loaded(_) => t.before.kind == Queue.Extract
       case Finished(e) => EffectsOk(db, t.before, e, cfg)
  }

  ghost predicate EffectsOk(db: Database, before: Queue.Job, e: Effects, cfg: Config) {
    && (e.document.Some? <==> e.newJob.Some?)
    && (e.document.Some? ==>
          before.kind == Queue.Ingest && e.ending == Queue.Success
          && Documents.Sound(db.documents, e.document.value, cfg.env))
    && (e.extraction.Some? ==>
          e.document.None? && before.kind == Queue.Extract && before.document == Some(e.extraction.value.1.document)
          && (e.extraction.value.1.Complete? <==> e.ending == Queue.Success))
  }

  ghost predicate ExclusiveLocks(open: map<Id, Txn>) {
    forall v, w | v in open && w in open && open[v].job == open[w].job :: v == w
  }

  ghost predicate Inv(s: System, cfg: Config) {
    && DatabaseOk(s.db, cfg)
    && (forall w | w in s.open :: TxnOk(s.db, s.open[w], cfg))
    && ExclusiveLocks(s.open)
  }

  const EMPTY: System := System(Database(map[], map[], map[], map[], map[]), map[])
}

/** Whole runs of the worker protocol: what every reachable state satisfies, what never
    changes once committed, and how many attempts can be made. */
module PipelineRuns {
  import opened Common
  import opened Pipeline
  import opened PipelineSafety
  import Queue
  import Documents
  import Review

  /** Every step is enabled when it is taken. */
  ghost predicate IsRun(s: System, steps: seq<Step>, cfg: Config)
    decreases |steps|
  {
    steps != [] ==> Enabled(s, steps[0], cfg) && IsRun(After(s, steps[0], cfg), steps[1..], cfg)
  }

  ghost function EndOf(s: System, steps: seq<Step>, cfg: Config): System
    requires IsRun(s, steps, cfg)
    decreases |steps|
  {
    if steps == [] then s else EndOf(After(s, steps[0], cfg), steps[1..], cfg)
  }

  /** The database invariant, exclusive locks and sound open transactions hold in
      every state that any interleaving reaches. */
  lemma {:induction false} RunKeepsInv(s: System, steps: seq<Step>, cfg: Config)
    requires Inv(s, cfg) && IsRun(s, steps, cfg)
    ensures Inv(EndOf(s, steps, cfg), cfg)
    decreases |steps|
  {
    hide Inv, Enabled, After;
    if steps != [] {
      StepKeepsInv(s, steps[0], cfg);
      RunKeepsInv(After(s, steps[0], cfg), steps[1..], cfg);
    }
  }

  /** Safety of the system started empty. */
  lemma ReachableIsSafe(steps: seq<Step>, cfg: Config)
    requires IsRun(EMPTY, steps, cfg)
    ensures var s := EndOf(EMPTY, steps, cfg);
      && DatabaseOk(s.db, cfg) && ExclusiveLocks(s.open)
      && (forall w | w in s.open :: s.open[w].job in s.db.jobs && s.db.jobs[s.open[w].job] == s.open[w].before)
  {
    InitInv(cfg);
    RunKeepsInv(EMPTY, steps, cfg);
  }

  // ------------------------------------------------------------- what never changes again

  predicate JobMoves(a: Queue.Job, b: Queue.Job) {
    && a.source == b.source && a.kind == b.kind && a.document == b.document && a.createdAt == b.createdAt
    && a.attempts <= b.attempts
    && (Queue.Terminal(a) ==> b == a)
  }

  /** Committed history only grows: terminal jobs, extractions and reviewed fields are
      final, and a document keeps its text. */
  ghost predicate Grows(a: Database, b: Database) {
    && (forall x | x in a.sources :: x in b.sources && b.sources[x] == a.sources[x])
    && (forall j | j in a.jobs :: j in b.jobs && JobMoves(a.jobs[j], b.jobs[j]))
    && Documents.Evolves(a.documents, b.documents)
    && (forall e | e in a.extractions :: e in b.extractions && b.extractions[e] == a.extractions[e])
    && Review.Evolves(a.reviews, b.reviews)
  }

  lemma CommitMovesJobs(db: Database, t: Txn, cfg: Config)
    requires DatabaseOk(db, cfg) && TxnOk(db, t, cfg) && t.phase.Finished? && Accepts(db, t)
    ensures forall j | j in db.jobs ::
              j in JobsAfter(db.jobs, t, cfg) && JobMoves(db.jobs[j], JobsAfter(db.jobs, t, cfg)[j])
  {
    Queue.ConcludeKeepsRow(t.before, t.phase.effects.ending, t.now, cfg.maxAttempts);
  }

  lemma CommitKeepsExtractions(db: Database, t: Txn)
    requires t.phase.Finished? && Accepts(db, t)
    ensures forall e | e in db.extractions ::
              e in ExtractionsAfter(db.extractions, t) && ExtractionsAfter(db.extractions, t)[e] == db.extractions[e]
  {
  }

  lemma CommitGrows(db: Database, t: Txn, cfg: Config)
    requires DatabaseOk(db, cfg) && TxnOk(db, t, cfg) && t.phase.Finished? && Accepts(db, t)
    ensures Grows(db, Merge(db, t, cfg))
  {
    hide DatabaseOk, TxnOk, Accepts, JobsAfter, ExtractionsAfter, JobMoves, Review.Run, Review.Evolves,
        Documents.Evolves;
    CommitKeepsDatabase(db, t, cfg);
    CommitReviews(db, t, cfg);
    CommitMovesJobs(db, t, cfg);
    CommitKeepsExtractions(db, t);
  }

  lemma ReviewStepGrows(s: System, e: Review.Event, cfg: Config)
    requires Inv(s, cfg)
    ensures Grows(s.db, WithReviews(s, e, cfg).db)
  {
    Review.StepEvolves(s.db.reviews, e, cfg.validate);
  }

  lemma StepGrows(s: System, step: Step, cfg: Config)
    requires Inv(s, cfg) && Enabled(s, step, cfg)
    ensures Grows(s.db, After(s, step, cfg).db)
  {
    hide Inv, Review.Apply, DatabaseOk, TxnOk, Accepts, Merge;
    match step
    case Commit(w) =>
      InvParts(s, w, cfg);
      CommitGrows(s.db, s.open[w], cfg);
    case Decide(id, action, reviewer, note, at) =>
      ReviewStepGrows(s, Review.Act(id, action, reviewer, note, at), cfg);
    case RoutePass(at) => ReviewStepGrows(s, Review.Pass(cfg.floor, cfg.budget, at), cfg);
    case _ =>
      GrowsReflexive(s.db);
      hide Documents.Evolves, Review.Evolves, Documents.PlanByText, Documents.WithBytes, HasComplete;
  }

  lemma GrowsTransitive(a: Database, b: Database, c: Database)
    requires Grows(a, b) && Grows(b, c)
    ensures Grows(a, c)
  {
    GrowingReviews(a.reviews, b.reviews, c.reviews);
  }

  lemma GrowingReviews(a: Review.Table, b: Review.Table, c: Review.Table)
    requires Review.Evolves(a, b) && Review.Evolves(b, c)
    ensures Review.Evolves(a, c)
  {
  }

  /** Over any run from a sound state, committed rows only make legal moves. */
  lemma {:induction false} RunGrows(s: System, steps: seq<Step>, cfg: Config)
    requires Inv(s, cfg) && IsRun(s, steps, cfg)
    ensures Grows(s.db, EndOf(s, steps, cfg).db)
    decreases |steps|
  {
    hide Inv, Enabled, After, Grows;
    if steps != [] {
      var next := After(s, steps[0], cfg);
      StepKeepsInv(s, steps[0], cfg);
      StepGrows(s, steps[0], cfg);
      RunGrows(next, steps[1..], cfg);
      GrowsTransitive(s.db, next.db, EndOf(next, steps[1..], cfg).db);
    } else {
      assert Grows(s.db, s.db) by { GrowsReflexive(s.db); }
    }
  }

  lemma GrowsReflexive(a: Database)
    ensures Grows(a, a)
  {
  }

  // ---------------------------------------------------------------------------- attempts

  function Commits(steps: seq<Step>): nat {
    if steps == [] then 0 else (if steps[0].Commit? then 1 else 0) + Commits(steps[1..])
  }

  function Registrations(steps: seq<Step>): nat {
    if steps == [] then 0 else (if steps[0].Register? then 1 else 0) + Registrations(steps[1..])
  }

  ghost function WorkOf(s: System, cfg: Config): nat {
    Queue.Work(s.db.jobs, cfg.maxAttempts)
  }

  lemma StepWork(s: System, step: Step, cfg: Config)
    requires Inv(s, cfg) && Enabled(s, step, cfg)
    ensures var work, after := WorkOf(s, cfg), WorkOf(After(s, step, cfg), cfg);
      && (step.Commit? ==> after < work)
      && (step.Register? ==> after == work + 2 * Queue.Cap(cfg.maxAttempts))
      && (!step.Commit? && !step.Register? ==> after == work)
  {
    if step.Commit? {
      var t := s.open[step.worker];
      assert TxnOk(s.db, t, cfg) && Queue.RowOk(s.db.jobs[t.job], cfg.maxAttempts);
      var e := t.phase.effects;
      var extra := if e.newJob.Some? then Some((e.newJob.value, EnqueuedJob(t))) else None;
      Queue.CommitLowersWork(s.db.jobs, t.job, e.ending, extra, t.now, cfg.maxAttempts);
    } else if step.Register? {
      Queue.WorkUpdate(s.db.jobs, step.jobId, Queue.NewJob(step.sourceId, Queue.Ingest, None, step.at),
                       cfg.maxAttempts);
    }
  }

  /** Every committed attempt uses up remaining work and only a registration adds any. */
  lemma {:induction false} RunWork(s: System, steps: seq<Step>, cfg: Config)
    requires Inv(s, cfg) && IsRun(s, steps, cfg)
    ensures Commits(steps) + WorkOf(EndOf(s, steps, cfg), cfg)
            <= WorkOf(s, cfg) + Registrations(steps) * (2 * Queue.Cap(cfg.maxAttempts))
    decreases |steps|
  {
    hide Inv, Enabled, After, WorkOf;
    if steps != [] {
      StepKeepsInv(s, steps[0], cfg);
      StepWork(s, steps[0], cfg);
      RunWork(After(s, steps[0], cfg), steps[1..], cfg);
      var rest := Registrations(steps[1..]);
      assert (rest + 1) * (2 * Queue.Cap(cfg.maxAttempts))
          == rest * (2 * Queue.Cap(cfg.maxAttempts)) + 2 * Queue.Cap(cfg.maxAttempts);
    }
  }

  /** The attempts that whole runs commit are at most 2M for each registration. */
  lemma TotalAttemptsAreBounded(steps: seq<Step>, cfg: Config)
    requires IsRun(EMPTY, steps, cfg)
    ensures Commits(steps) <= Registrations(steps) * (2 * Queue.Cap(cfg.maxAttempts))
  {
    InitInv(cfg);
    RunWork(EMPTY, steps, cfg);
  }

  // ------------------------------------------------------------------- attempts of one source

  function JobsOf(jobs: Queue.Table, source: Id): Queue.Table {
    map j | j in jobs && jobs[j].source == source :: jobs[j]
  }

  ghost function WorkFor(s: System, source: Id, cfg: Config): nat {
    Queue.Work(JobsOf(s.db.jobs, source), cfg.maxAttempts)
  }

  predicate CommitsJobOf(s: System, step: Step, source: Id) {
    step.Commit? && step.worker in s.open && s.open[step.worker].before.source == source
  }

  /** The committed attempts of a run whose job belongs to `source`. */
  ghost function CommitsFor(s: System, steps: seq<Step>, source: Id, cfg: Config): nat
    requires IsRun(s, steps, cfg)
    decreases |steps|
  {
    if steps == [] then 0
    else (if CommitsJobOf(s, steps[0], source) then 1 else 0)
         + CommitsFor(After(s, steps[0], cfg), steps[1..], source, cfg)
  }

  lemma JobsOfUpdate(jobs: Queue.Table, source: Id, j: Id, job: Queue.Job)
    requires j in jobs ==> jobs[j].source == job.source
    ensures JobsOf(jobs[j := job], source)
            == if job.source == source then JobsOf(jobs, source)[j := job] else JobsOf(jobs, source)
  {
  }

  lemma CommitWorkFor(s: System, w: Id, source: Id, cfg: Config)
    requires Inv(s, cfg) && Enabled(s, Commit(w), cfg)
    ensures var work, after := WorkFor(s, source, cfg), WorkFor(After(s, Commit(w), cfg), source, cfg);
      if s.open[w].before.source == source then after < work else after == work
  {
    var t := s.open[w];
    assert TxnOk(s.db, t, cfg) && Queue.RowOk(s.db.jobs[t.job], cfg.maxAttempts);
    hide DatabaseOk, Queue.Work;
    var e, jobs := t.phase.effects, s.db.jobs;
    Queue.ConcludeKeepsRow(t.before, e.ending, t.now, cfg.maxAttempts);
    var row := Queue.Conclude(t.before, e.ending, t.now, cfg.maxAttempts);
    JobsOfUpdate(jobs, source, t.job, row);
    var extra := None;
    if e.newJob.Some? {
      extra := Some((e.newJob.value, EnqueuedJob(t)));
      JobsOfUpdate(jobs[t.job := row], source, e.newJob.value, EnqueuedJob(t));
    }
    if t.before.source == source {
      Queue.CommitLowersWork(JobsOf(jobs, source), t.job, e.ending, extra, t.now, cfg.maxAttempts);
    }
  }

  lemma StepWorkFor(s: System, step: Step, source: Id, cfg: Config)
    requires Inv(s, cfg) && Enabled(s, step, cfg)
    ensures var after := After(s, step, cfg);
      && (if CommitsJobOf(s, step, source) then WorkFor(after, source, cfg) < WorkFor(s, source, cfg)
          else if step.Register? && step.sourceId == source then
            WorkFor(after, source, cfg) == WorkFor(s, source, cfg) + 2 * Queue.Cap(cfg.maxAttempts)
          else WorkFor(after, source, cfg) == WorkFor(s, source, cfg))
      && (source in after.db.sources <==> source in s.db.sources || (step.Register? && step.sourceId == source))
  {
    hide Inv, DatabaseOk, Queue.Work, Review.Apply;
    if step.Commit? {
      CommitWorkFor(s, step.worker, source, cfg);
    } else if step.Register? {
      var job := Queue.NewJob(step.sourceId, Queue.Ingest, None, step.at);
      JobsOfUpdate(s.db.jobs, source, step.jobId, job);
      Queue.WorkUpdate(JobsOf(s.db.jobs, source), step.jobId, job, cfg.maxAttempts);
    }
  }

  /** A source's committed attempts are paid for by the work it has left, or by the one
      registration it may still get. */
  lemma {:induction false} RunWorkFor(s: System, steps: seq<Step>, source: Id, cfg: Config)
    requires Inv(s, cfg) && IsRun(s, steps, cfg)
    ensures CommitsFor(s, steps, source, cfg) + WorkFor(EndOf(s, steps, cfg), source, cfg)
            <= WorkFor(s, source, cfg) + (if source in s.db.sources then 0 else 2 * Queue.Cap(cfg.maxAttempts))
    decreases |steps|
  {
    hide Inv, Enabled, After, WorkFor, CommitsJobOf;
    if steps != [] {
      StepKeepsInv(s, steps[0], cfg);
      StepWorkFor(s, steps[0], source, cfg);
      NoSecondRegistration(s, steps[0], source, cfg);
      RunWorkFor(After(s, steps[0], cfg), steps[1..], source, cfg);
    }
  }

  lemma NoSecondRegistration(s: System, step: Step, source: Id, cfg: Config)
    requires Enabled(s, step, cfg)
    ensures step.Register? && step.sourceId == source ==> source !in s.db.sources
  {
  }

  /** At most 2M attempts are ever committed for any one source, whatever fails. */
  lemma AttemptsAreBounded(steps: seq<Step>, source: Id, cfg: Config)
    requires IsRun(EMPTY, steps, cfg)
    ensures CommitsFor(EMPTY, steps, source, cfg) <= 2 * Queue.Cap(cfg.maxAttempts)
  {
    InitInv(cfg);
    RunWorkFor(EMPTY, steps, source, cfg);
    assert JobsOf(map[], source) == map[];
  }

  // ----------------------------------------------------------------------------- crashes

  /** Steps of worker `w` inside its own transaction. */
  predicate InsideTxn(step: Step, w: Id) {
    match step
    case FetchFails(v, _, _) => v == w
    case CheckBytes(v, _, _) => v == w
    case CheckText(v, _, _) => v == w
    case NoClient(v, _, _) => v == w
    case CheckExtraction(v, _) => v == w
    case ModelAnswers(v, _, _, _, _) => v == w
    case ModelFails(v, _, _, _) => v == w
    case _ => false
  }

  /** Steps of other workers, of reviewers, of registrations and of routing passes. */
  predicate Elsewhere(step: Step, w: Id) {
    match step
    case Claim(v, _, _) => v != w
    case Commit(v) => v != w
    case Abort(v) => v != w
    case _ => !InsideTxn(step, w)
  }

  /** Worker `w` neither commits nor aborts nor claims. */
  predicate StaysOpen(steps: seq<Step>, w: Id) {
    forall i | 0 <= i < |steps| :: InsideTxn(steps[i], w) || Elsewhere(steps[i], w)
  }

  /** The steps that are not the worker's. */
  function Others(steps: seq<Step>, w: Id): seq<Step> {
    if steps == [] then []
    else (if InsideTxn(steps[0], w) then [] else [steps[0]]) + Others(steps[1..], w)
  }

  /** Two states that differ at most in how far the transaction of `w` has got. */
  predicate SameButFor(a: System, b: System, w: Id) {
    && w in a.open && w in b.open && a.open[w].job == b.open[w].job && a.open[w].before == b.open[w].before
    && a.db == b.db && a.open - {w} == b.open - {w}
  }

  lemma PrivateStep(a: System, b: System, w: Id, step: Step, cfg: Config)
    requires SameButFor(a, b, w) && InsideTxn(step, w) && Enabled(a, step, cfg)
    ensures SameButFor(After(a, step, cfg), b, w)
  {
    assert After(a, step, cfg).open - {w} == a.open - {w};
  }

  lemma OpenElsewhere(a: System, b: System, w: Id, v: Id)
    requires SameButFor(a, b, w) && v != w
    ensures (v in a.open <==> v in b.open) && (v in a.open ==> a.open[v] == b.open[v])
    ensures Locked(a.open) == Locked(b.open)
  {
    forall u ensures (u in a.open <==> u in b.open) && (u in a.open && u != w ==> a.open[u] == b.open[u]) {
      assert u != w ==> (u in a.open - {w} <==> u in b.open - {w});
      assert u in a.open && u != w ==> (a.open - {w})[u] == (b.open - {w})[u];
    }
  }

  /** Opening, moving or closing another transaction does not touch that of `w`. */
  lemma OtherTxnMoves(a: System, b: System, w: Id, v: Id, t: Txn)
    requires SameButFor(a, b, w) && v != w
    ensures SameButFor(a.(open := a.open[v := t]), b.(open := b.open[v := t]), w)
    ensures SameButFor(a.(open := a.open - {v}), b.(open := b.open - {v}), w)
  {
    assert a.open[v := t] - {w} == (a.open - {w})[v := t] && b.open[v := t] - {w} == (b.open - {w})[v := t];
    assert a.open - {v} - {w} == a.open - {w} - {v} && b.open - {v} - {w} == b.open - {w} - {v};
  }

  lemma StepElsewhere(a: System, b: System, w: Id, step: Step, cfg: Config)
    requires SameButFor(a, b, w) && Elsewhere(step, w) && Enabled(a, step, cfg)
    ensures Enabled(b, step, cfg) && SameButFor(After(a, step, cfg), After(b, step, cfg), w)
  {
    hide Review.Apply, Merge, Accepts, Locked, Queue.IsOldest, Documents.PlanByText, Documents.WithBytes, HasComplete;
    if !step.Register? && !step.Decide? && !step.RoutePass? {
      var v := step.worker;
      OpenElsewhere(a, b, w, v);
      if v in After(a, step, cfg).open {
        OtherTxnMoves(a, b, w, v, After(a, step, cfg).open[v]);
      } else {
        OtherTxnMoves(a, b, w, v, a.open[v]);
      }
    }
  }

  /** Nobody can tell what an open transaction has done: leaving its steps out, the run is
      still possible and ends in the same state but for that transaction. */
  lemma {:induction false} OpenTxnIsInvisible(a: System, b: System, w: Id, steps: seq<Step>, cfg: Config)
    requires SameButFor(a, b, w) && StaysOpen(steps, w) && IsRun(a, steps, cfg)
    ensures IsRun(b, Others(steps, w), cfg)
    ensures SameButFor(EndOf(a, steps, cfg), EndOf(b, Others(steps, w), cfg), w)
    decreases |steps|
  {
    hide Enabled, After, SameButFor, Elsewhere;
    if steps != [] {
      var step, rest := steps[0], steps[1..];
      assert forall i | 0 <= i < |rest| :: rest[i] == steps[i + 1];
      var next := After(a, step, cfg);
      if InsideTxn(step, w) {
        PrivateStep(a, b, w, step, cfg);
        OpenTxnIsInvisible(next, b, w, rest, cfg);
        assert Others(steps, w) == Others(rest, w);
      } else {
        StepElsewhere(a, b, w, step, cfg);
        OpenTxnIsInvisible(next, After(b, step, cfg), w, rest, cfg);
        assert Others(steps, w) == [step] + Others(rest, w);
        assert ([step] + Others(rest, w))[1..] == Others(rest, w);
      }
    }
  }

  /** A crash at any point of a transaction, whatever the others did meanwhile, leaves the state
      that their steps alone lead to: the transaction's claim and everything after it are undone,
      and the claimed row is as it was. */
  lemma CrashLeavesNoTrace(s: System, w: Id, job: Id, at: Time, steps: seq<Step>, cfg: Config)
    requires Inv(s, cfg) && Enabled(s, Claim(w, job, at), cfg) && StaysOpen(steps, w)
    requires IsRun(After(s, Claim(w, job, at), cfg), steps, cfg)
    ensures var claimed := After(s, Claim(w, job, at), cfg);
      var end := EndOf(claimed, steps, cfg);
      && IsRun(claimed, Others(steps, w), cfg)
      && var alone := EndOf(claimed, Others(steps, w), cfg);
      && Enabled(end, Abort(w), cfg) && Enabled(alone, Abort(w), cfg)
      && After(end, Abort(w), cfg) == After(alone, Abort(w), cfg)
      && job in end.db.jobs && end.db.jobs[job] == s.db.jobs[job]
      && (Others(steps, w) == [] ==> After(end, Abort(w), cfg) == s)
  {
    hide Inv, IsRun, EndOf, StaysOpen, Others, Queue.IsOldest;
    var claimed := After(s, Claim(w, job, at), cfg);
    StepKeepsInv(s, Claim(w, job, at), cfg);
    RunKeepsInv(claimed, steps, cfg);
    StillTheClaim(claimed, w, steps, cfg);
    ClaimedRowIsKept(EndOf(claimed, steps, cfg), w, cfg);
    OpenTxnIsInvisible(claimed, claimed, w, steps, cfg);
    NoSteps(claimed, cfg);
    assert claimed.open - {w} == s.open;
  }

  lemma NoSteps(s: System, cfg: Config)
    ensures IsRun(s, [], cfg) && EndOf(s, [], cfg) == s
  {
  }

  lemma ClaimedRowIsKept(s: System, w: Id, cfg: Config)
    requires Inv(s, cfg) && w in s.open
    ensures s.open[w].job in s.db.jobs && s.db.jobs[s.open[w].job] == s.open[w].before
  {
    hide DatabaseOk;
    assert TxnOk(s.db, s.open[w], cfg);
  }

  lemma {:induction false} StillTheClaim(s: System, w: Id, steps: seq<Step>, cfg: Config)
    requires w in s.open && StaysOpen(steps, w) && IsRun(s, steps, cfg)
    ensures var end := EndOf(s, steps, cfg);
      w in end.open && end.open[w].job == s.open[w].job && end.open[w].before == s.open[w].before
    decreases |steps|
  {
    if steps != [] {
      assert forall i | 0 <= i < |steps[1..]| :: steps[1..][i] == steps[i + 1];
      StepKeepsClaim(s, w, steps[0], cfg);
      hide Enabled, After, Elsewhere, InsideTxn;
      StillTheClaim(After(s, steps[0], cfg), w, steps[1..], cfg);
    }
  }

  lemma StepKeepsClaim(s: System, w: Id, step: Step, cfg: Config)
    requires w in s.open && Enabled(s, step, cfg) && (InsideTxn(step, w) || Elsewhere(step, w))
    ensures var after := After(s, step, cfg);
      w in after.open && after.open[w].job == s.open[w].job && after.open[w].before == s.open[w].before
  {
    hide Review.Apply, Merge, Accepts, Queue.IsOldest;
  }

  // ------------------------------------------------------------------------------ review

  /** The review events a step performs. */
  function EventsOf(s: System, step: Step, cfg: Config): seq<Review.Event> {
    match step
    case Commit(w) => if w in s.open && s.open[w].phase.Finished? then ReviewEvents(s.open[w], cfg) else []
    case Decide(id, action, reviewer, note, at) => [Review.Act(id, action, reviewer, note, at)]
    case RoutePass(at) => [Review.Pass(cfg.floor, cfg.budget, at)]
    case _ => []
  }

  lemma StepReviews(s: System, step: Step, cfg: Config)
    requires Enabled(s, step, cfg)
    ensures After(s, step, cfg).db.reviews == Review.Run(s.db.reviews, EventsOf(s, step, cfg), cfg.validate)
  {
    hide Review.Apply;
    var events := EventsOf(s, step, cfg);
    if |events| == 1 {
      assert events[1..] == [];
      assert Review.Run(s.db.reviews, events, cfg.validate)
          == Review.Run(Review.Apply(s.db.reviews, events[0], cfg.validate), [], cfg.validate);
    }
  }

  /** With a budget configured, the review queue never exceeds it in any run of the system. */
  lemma {:induction false} RunKeepsQueueWithinBudget(s: System, steps: seq<Step>, cfg: Config)
    requires IsRun(s, steps, cfg) && cfg.budget.Some?
    requires |Review.RoutedIds(s.db.reviews)| <= cfg.budget.value
    ensures |Review.RoutedIds(EndOf(s, steps, cfg).db.reviews)| <= cfg.budget.value
    decreases |steps|
  {
    hide Enabled, After, Review.RoutedIds, Review.Run;
    if steps != [] {
      StepReviews(s, steps[0], cfg);
      Review.RunKeepsBudget(s.db.reviews, EventsOf(s, steps[0], cfg), cfg.budget.value, cfg.validate);
      RunKeepsQueueWithinBudget(After(s, steps[0], cfg), steps[1..], cfg);
    }
  }

  /** Uncapped, a worker's complete extraction commits with no unreviewed field below the floor
      anywhere in the table. */
  lemma CommittedExtractionLeavesNoneBelowFloor(s: System, w: Id, cfg: Config)
    requires Inv(s, cfg) && Enabled(s, Commit(w), cfg) && cfg.budget.None?
    requires var e := s.open[w].phase.effects.extraction; e.Some? && e.value.1.Complete?
    ensures Review.Eligible(After(s, Commit(w), cfg).db.reviews, cfg.floor) == {}
  {
    hide Review.Eligible, Review.Route;
    var events := ReviewEvents(s.open[w], cfg);
    RunOfTwo(s.db.reviews, events[0], events[1], cfg);
    Review.UncappedPassLeavesNoneBelow(Review.Apply(s.db.reviews, events[0], cfg.validate), cfg.floor, s.open[w].now);
  }
}

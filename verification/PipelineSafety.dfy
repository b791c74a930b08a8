/** Every interleaving of workers, crashes, reviewers and registrations keeps the
    invariant of the whole database. */
module PipelineSafety {
  import opened Common
  import opened Pipeline
  import Queue
  import Documents
  import Review

  lemma InitInv(cfg: Config)
    ensures Inv(EMPTY, cfg)
  {
  }

  // ---------------------------------------------------------- steps inside a transaction

  lemma MoveKeepsInv(s: System, w: Id, phase: Phase, cfg: Config)
    requires Inv(s, cfg) && w in s.open
    requires TxnOk(s.db, s.open[w].(phase := phase), cfg)
    ensures Inv(Move(s, w, phase), cfg)
  {
  }

  lemma ClaimKeepsInv(s: System, w: Id, job: Id, at: Time, cfg: Config)
    requires Inv(s, cfg) && Enabled(s, Claim(w, job, at), cfg)
    ensures Inv(After(s, Claim(w, job, at), cfg), cfg)
  {
    assert Queue.RowOk(s.db.jobs[job], cfg.maxAttempts);
    assert forall v | v in s.open :: s.open[v].job in Locked(s.open);
  }

  lemma StageKeepsInv(s: System, w: Id, step: Step, cfg: Config)
    requires Inv(s, cfg) && Enabled(s, step, cfg)
    requires step.FetchFails? || step.CheckBytes? || step.CheckText? || step.NoClient? || step.CheckExtraction?
             || step.ModelAnswers? || step.ModelFails?
    requires w == step.worker
    ensures Inv(After(s, step, cfg), cfg)
  {
    hide Inv, DatabaseOk;
    assert DatabaseOk(s.db, cfg) && TxnOk(s.db, s.open[w], cfg) by { InvParts(s, w, cfg); }
    if step.CheckText? {
      var t := s.open[w];
      DocumentsAreOk(s.db, cfg);
      Documents.PlanByTextIsSound(s.db.documents, t.phase.fetched, cfg.env, t.before.source, step.documentId, t.now);
    }
    MoveKeepsInv(s, w, After(s, step, cfg).open[w].phase, cfg);
  }

  lemma InvParts(s: System, w: Id, cfg: Config)
    requires Inv(s, cfg) && w in s.open
    ensures DatabaseOk(s.db, cfg) && TxnOk(s.db, s.open[w], cfg)
  {
  }

  lemma DocumentsAreOk(db: Database, cfg: Config)
    requires DatabaseOk(db, cfg)
    ensures Documents.TableOk(db.documents, cfg.env)
  {
  }

  // --------------------------------------------------------------------------- reviews

  lemma ReviewsStayMatched(extractions: map<Id, Extraction>, before: Review.Table, after: Review.Table)
    requires ReviewsMatch(extractions, before)
    requires Review.Evolves(before, after) && after.Keys == before.Keys
    ensures ReviewsMatch(extractions, after)
  {
    forall e, f: Review.Field | e in extractions && extractions[e].Complete?
      ensures HasReview(after, e, f)
    {
      assert HasReview(before, e, f);
      var r :| Reviews(before, r, e, f);
      assert Reviews(after, r, e, f);
    }
  }

  lemma SameRows(reviews: Review.Table, e: Review.Event, cfg: Config)
    requires !e.Extracted?
    ensures Review.Apply(reviews, e, cfg.validate).Keys == reviews.Keys
  {
  }

  /** Decisions and routing passes keep the table's constraints and its link to the extractions. */
  lemma ReviewStepKeepsReviews(extractions: map<Id, Extraction>, reviews: Review.Table, e: Review.Event, cfg: Config)
    requires Review.TableOk(reviews, cfg.validate) && ReviewsMatch(extractions, reviews) && !e.Extracted?
    ensures var after := Review.Apply(reviews, e, cfg.validate);
      Review.TableOk(after, cfg.validate) && ReviewsMatch(extractions, after)
  {
    hide Review.Apply, Review.TableOk, ReviewsMatch, Review.Evolves;
    Review.StepKeepsTable(reviews, e, cfg.validate);
    Review.StepEvolves(reviews, e, cfg.validate);
    SameRows(reviews, e, cfg);
    ReviewsStayMatched(extractions, reviews, Review.Apply(reviews, e, cfg.validate));
  }

  lemma ReviewStepKeepsInv(s: System, e: Review.Event, cfg: Config)
    requires Inv(s, cfg) && !e.Extracted?
    ensures Inv(WithReviews(s, e, cfg), cfg)
  {
    hide Review.Apply, Review.TableOk, ReviewsMatch;
    ReviewStepKeepsReviews(s.db.extractions, s.db.reviews, e, cfg);
    var after := WithReviews(s, e, cfg);
    forall w | w in after.open
      ensures TxnOk(after.db, after.open[w], cfg)
    {
      assert TxnOk(s.db, s.open[w], cfg);
    }
  }

  lemma NewReviewsMatch(extractions: map<Id, Extraction>, reviews: Review.Table, id: Id, row: Extraction,
                        ids: seq<Id>, now: Time)
    requires ReviewsMatch(extractions, reviews) && id !in extractions && row.Complete?
    requires Review.CanInsert(reviews, id, ids)
    ensures ReviewsMatch(extractions[id := row],
                         reviews + Review.NewRows(id, ids, row.record, row.confidence, now))
  {
    var added := Review.NewRows(id, ids, row.record, row.confidence, now);
    var after := reviews + added;
    forall e, f: Review.Field | e in extractions[id := row] && extractions[id := row][e].Complete?
      ensures HasReview(after, e, f)
    {
      if e == id {
        assert Reviews(after, ids[f], id, f);
      } else {
        assert HasReview(reviews, e, f);
        var r :| Reviews(reviews, r, e, f);
        assert r !in ids;
        assert Reviews(after, r, e, f);
      }
    }
    forall r | r in after
      ensures var e := after[r].extraction;
        && e in extractions[id := row] && extractions[id := row][e].Complete?
        && after[r].modelValue == extractions[id := row][e].record[after[r].field]
        && after[r].confidence == extractions[id := row][e].confidence[after[r].field]
    {
      if r in added {
        assert r in ids;
        var f :| 0 <= f < Review.FIELD_COUNT && ids[f] == r;
        assert added[r] == Review.NewRow(id, f, row.record, row.confidence, now);
      }
    }
  }

  // ---------------------------------------------------------------------------- commit

  lemma CommitJobs(db: Database, t: Txn, cfg: Config)
    requires DatabaseOk(db, cfg) && TxnOk(db, t, cfg) && t.phase.Finished? && Accepts(db, t)
    requires Documents.Evolves(db.documents, DocumentsAfter(db.documents, t))
    ensures JobsOk(Merge(db, t, cfg), cfg)
    ensures forall j, d | Extracts(db.jobs, j, d) :: Extracts(JobsAfter(db.jobs, t, cfg), j, d)
  {
    Queue.ConcludeKeepsRow(t.before, t.phase.effects.ending, t.now, cfg.maxAttempts);
  }

  lemma CommitDocuments(db: Database, t: Txn, cfg: Config)
    requires DatabaseOk(db, cfg) && TxnOk(db, t, cfg) && t.phase.Finished? && Accepts(db, t)
    ensures Documents.TableOk(DocumentsAfter(db.documents, t), cfg.env)
    ensures Documents.Evolves(db.documents, DocumentsAfter(db.documents, t))
  {
    if t.phase.effects.document.Some? {
      Documents.PerformKeepsTable(db.documents, t.phase.effects.document.value, cfg.env);
    }
  }

  lemma CommitDocumentJobs(db: Database, t: Txn, cfg: Config)
    requires DatabaseOk(db, cfg) && TxnOk(db, t, cfg) && t.phase.Finished? && Accepts(db, t)
    requires forall j, d | Extracts(db.jobs, j, d) :: Extracts(JobsAfter(db.jobs, t, cfg), j, d)
    ensures DocumentsHaveJobs(Merge(db, t, cfg))
  {
    var docs, jobs := DocumentsAfter(db.documents, t), JobsAfter(db.jobs, t, cfg);
    forall d | d in docs
      ensures exists j :: Extracts(jobs, j, d)
    {
      if d in db.documents {
        var j :| Extracts(db.jobs, j, d);
        assert Extracts(jobs, j, d);
      } else {
        assert Extracts(jobs, t.phase.effects.newJob.value, d);
      }
    }
  }

  lemma CommitExtractions(db: Database, t: Txn, cfg: Config)
    requires DatabaseOk(db, cfg) && TxnOk(db, t, cfg) && t.phase.Finished? && Accepts(db, t)
    requires Documents.Evolves(db.documents, DocumentsAfter(db.documents, t))
    ensures ExtractionsOk(Merge(db, t, cfg))
  {
    var before, after := db.extractions, ExtractionsAfter(db.extractions, t);
    var e := t.phase.effects.extraction;
    if e.Some? {
      assert Queue.RowOk(db.jobs[t.job], cfg.maxAttempts);
      var id, row := e.value.0, e.value.1;
      forall x, document, identity | IsComplete(after, x, document, identity) && x != id
        ensures IsComplete(before, x, document, identity) && HasComplete(db.extractions, document, identity)
      {
        assert IsComplete(before, x, document, identity);
      }
    }
  }

  lemma CommitReviews(db: Database, t: Txn, cfg: Config)
    requires DatabaseOk(db, cfg) && TxnOk(db, t, cfg) && t.phase.Finished? && Accepts(db, t)
    ensures Review.TableOk(Merge(db, t, cfg).reviews, cfg.validate)
    ensures ReviewsMatch(ExtractionsAfter(db.extractions, t), Merge(db, t, cfg).reviews)
    ensures Review.Evolves(db.reviews, Merge(db, t, cfg).reviews)
  {
    hide Review.Apply, Review.TableOk, ReviewsMatch, Review.Evolves;
    var events := ReviewEvents(t, cfg);
    Review.RunKeepsTable(db.reviews, events, cfg.validate);
    var e := t.phase.effects.extraction;
    if e.Some? && e.value.1.Complete? {
      InsertThenPass(db, t, cfg);
    } else {
      assert events == [];
      if e.Some? {
        FailedRowNeedsNoReviews(db.extractions, db.reviews, e.value.0, e.value.1);
      }
    }
  }

  lemma FailedRowNeedsNoReviews(extractions: map<Id, Extraction>, reviews: Review.Table, id: Id, row: Extraction)
    requires ReviewsMatch(extractions, reviews) && id !in extractions && row.Failed?
    ensures ReviewsMatch(extractions[id := row], reviews)
  {
  }

  lemma InsertThenPass(db: Database, t: Txn, cfg: Config)
    requires DatabaseOk(db, cfg) && t.phase.Finished? && Accepts(db, t)
    requires t.phase.effects.extraction.Some? && t.phase.effects.extraction.value.1.Complete?
    ensures ReviewsMatch(ExtractionsAfter(db.extractions, t), Merge(db, t, cfg).reviews)
  {
    hide Review.TableOk, ReviewsMatch, Review.Route;
    var id, row := t.phase.effects.extraction.value.0, t.phase.effects.extraction.value.1;
    var events := ReviewEvents(t, cfg);
    NewReviewsMatch(db.extractions, db.reviews, id, row, t.phase.effects.reviewIds, t.now);
    RunOfTwo(db.reviews, events[0], events[1], cfg);
    Review.StepKeepsTable(db.reviews, events[0], cfg.validate);
    var mid := Review.Apply(db.reviews, events[0], cfg.validate);
    ReviewStepKeepsReviews(ExtractionsAfter(db.extractions, t), mid, events[1], cfg);
  }

  lemma RunOfTwo(rows: Review.Table, first: Review.Event, second: Review.Event, cfg: Config)
    ensures Review.Run(rows, [first, second], cfg.validate)
            == Review.Apply(Review.Apply(rows, first, cfg.validate), second, cfg.validate)
  {
    hide Review.Apply;
    var mid := Review.Apply(rows, first, cfg.validate);
    assert [first, second][1..] == [second] && [second][1..] == [];
    assert Review.Run(mid, [second], cfg.validate)
        == Review.Run(Review.Apply(mid, second, cfg.validate), [], cfg.validate);
  }

  lemma CommitKeepsDatabase(db: Database, t: Txn, cfg: Config)
    requires DatabaseOk(db, cfg) && TxnOk(db, t, cfg) && t.phase.Finished? && Accepts(db, t)
    ensures DatabaseOk(Merge(db, t, cfg), cfg)
    ensures Documents.Evolves(db.documents, DocumentsAfter(db.documents, t))
  {
    CommitDocuments(db, t, cfg);
    CommitJobs(db, t, cfg);
    CommitDocumentJobs(db, t, cfg);
    CommitExtractions(db, t, cfg);
    CommitReviews(db, t, cfg);
  }

  /** Another transaction's commit changes nothing an open transaction relies on. */
  lemma CommitKeepsOthers(db: Database, t: Txn, other: Txn, cfg: Config)
    requires TxnOk(db, t, cfg) && TxnOk(db, other, cfg) && other.job != t.job
    requires t.phase.Finished? && Accepts(db, t)
    requires Documents.Evolves(db.documents, DocumentsAfter(db.documents, t))
    ensures TxnOk(Merge(db, t, cfg), other, cfg)
  {
    if other.phase.Finished? && other.phase.effects.document.Some? {
      Documents.SoundIsStable(db.documents, DocumentsAfter(db.documents, t), other.phase.effects.document.value,
                              cfg.env);
    }
  }

  lemma CommitKeepsInv(s: System, w: Id, cfg: Config)
    requires Inv(s, cfg) && Enabled(s, Commit(w), cfg)
    ensures Inv(After(s, Commit(w), cfg), cfg)
  {
    CommitKeepsDatabase(s.db, s.open[w], cfg);
    hide DatabaseOk, TxnOk, Merge, Accepts;
    forall v | v in s.open && v != w
      ensures TxnOk(Merge(s.db, s.open[w], cfg), s.open[v], cfg)
    {
      CommitKeepsOthers(s.db, s.open[w], s.open[v], cfg);
    }
  }

  // -------------------------------------------------------------------------- every step

  lemma StepKeepsInv(s: System, step: Step, cfg: Config)
    requires Inv(s, cfg) && Enabled(s, step, cfg)
    ensures Inv(After(s, step, cfg), cfg)
  {
    match step
    case Register(_, jobId, _, _) => RegisterKeepsInv(s, step, cfg);
    case Claim(w, job, at) => ClaimKeepsInv(s, w, job, at, cfg);
    case Commit(w) => CommitKeepsInv(s, w, cfg);
    case Abort(w) =>
    case Decide(id, action, reviewer, note, at) =>
      ReviewStepKeepsInv(s, Review.Act(id, action, reviewer, note, at), cfg);
    case RoutePass(at) => ReviewStepKeepsInv(s, Review.Pass(cfg.floor, cfg.budget, at), cfg);
    case _ => StageKeepsInv(s, step.worker, step, cfg);
  }

  lemma RegisterKeepsInv(s: System, step: Step, cfg: Config)
    requires Inv(s, cfg) && step.Register? && Enabled(s, step, cfg)
    ensures Inv(After(s, step, cfg), cfg)
  {
    var after := After(s, step, cfg);
    forall d | d in after.db.documents
      ensures exists j :: Extracts(after.db.jobs, j, d)
    {
      var j :| Extracts(s.db.jobs, j, d);
      assert Extracts(after.db.jobs, j, d);
    }
    forall w | w in after.open
      ensures TxnOk(after.db, after.open[w], cfg)
    {
      assert TxnOk(s.db, s.open[w], cfg);
    }
  }
}

/** Merging documents that share a text: re-point every reference to the oldest row,
    delete the others, and give the oldest the newest row's provenance. */
module Migration {
  import opened Common
  import opened Ordering
  import Documents
  import Queue

  /** The columns of `extractions` the merge reads; `rest` stands for all the others. */
  datatype Extraction = Extraction(document: Id, key: (string, string, string), complete: bool, rest: Json)

  type Extractions = map<Id, Extraction>

  // ------------------------------------------------------------------------- groups

  /** ORDER BY created_at, with the row id as tie-break. */
  function AgeOrder(docs: Documents.Table): (Id, Id) -> bool {
    (i, j) => i in docs && j in docs
              && (docs[i].createdAt < docs[j].createdAt || (docs[i].createdAt == docs[j].createdAt && i < j))
  }

  lemma AgeOrderTotal(docs: Documents.Table, s: set<Id>)
    requires s <= docs.Keys
    ensures StrictTotal(AgeOrder(docs), s)
  {
  }

  function Sharing(docs: Documents.Table, t: Documents.TextHash): set<Id> {
    set id | id in docs && docs[id].textHash == t
  }

  /** The rows of one text, oldest first. */
  function Group(docs: Documents.Table, t: Documents.TextHash): (g: seq<Id>)
    ensures Elements(g) == Sharing(docs, t) && |g| == |Sharing(docs, t)| && Ascending(AgeOrder(docs), g)
  {
    AgeOrderTotal(docs, Sharing(docs, t));
    Ranking(AgeOrder(docs), Sharing(docs, t))
  }

  lemma GroupOf(docs: Documents.Table, id: Id)
    requires id in docs
    ensures var g := Group(docs, docs[id].textHash);
      g != [] && id in g && forall i | i in g :: i in docs && docs[i].textHash == docs[id].textHash
  {
    var g := Group(docs, docs[id].textHash);
    assert id in Elements(g);
    assert forall i | i in g :: i in Elements(g);
  }

  function Canonical(docs: Documents.Table, id: Id): (c: Id)
    requires id in docs
    ensures c in docs && docs[c].textHash == docs[id].textHash
  {
    GroupOf(docs, id);
    Group(docs, docs[id].textHash)[0]
  }

  function Newest(docs: Documents.Table, id: Id): (n: Id)
    requires id in docs
    ensures n in docs && docs[n].textHash == docs[id].textHash
  {
    GroupOf(docs, id);
    var g := Group(docs, docs[id].textHash);
    g[|g| - 1]
  }

  // ------------------------------------------------------------------- the merged tables

  /** The canonical row with the provenance of the newest fetch. */
  function WithProvenance(row: Documents.Document, from: Documents.Document): Documents.Document {
    row.(url := from.url, fetchedAt := from.fetchedAt, contentHash := from.contentHash, raw := from.raw)
  }

  function Target(docs: Documents.Table, gone: set<Id>, id: Id): Id {
    if id in docs && id in gone then Canonical(docs, id) else id
  }

  /** The tables with the rows `gone` merged away and the canonical rows `done` updated. */
  function PartDocuments(docs: Documents.Table, gone: set<Id>, done: set<Id>): Documents.Table {
    map id | id in docs && id !in gone ::
      if id in done then WithProvenance(docs[id], docs[Newest(docs, id)]) else docs[id]
  }

  function PartJobs(docs: Documents.Table, jobs: Queue.Table, gone: set<Id>): Queue.Table {
    map j | j in jobs :: if jobs[j].document.Some? then
                           jobs[j].(document := Some(Target(docs, gone, jobs[j].document.value)))
                         else jobs[j]
  }

  function PartExtractions(docs: Documents.Table, extractions: Extractions, gone: set<Id>): Extractions {
    map e | e in extractions :: extractions[e].(document := Target(docs, gone, extractions[e].document))
  }

  function Duplicates(docs: Documents.Table): set<Id> {
    set id | id in docs && Canonical(docs, id) != id
  }

  function Merged(docs: Documents.Table): Documents.Table {
    PartDocuments(docs, Duplicates(docs), docs.Keys)
  }

  // ------------------------------------------------------------------------ constraints

  /** The partial unique index: one complete extraction per document and key. */
  predicate OneComplete(extractions: Extractions) {
    forall a, b | a in extractions && b in extractions && extractions[a].complete && extractions[b].complete
                  && extractions[a].document == extractions[b].document && extractions[a].key == extractions[b].key ::
      a == b
  }

  /** No text has two complete extractions for one key on its rows. */
  ghost predicate Mergeable(docs: Documents.Table, extractions: Extractions) {
    OneComplete(PartExtractions(docs, extractions, Duplicates(docs)))
  }

  predicate Collide(extractions: Extractions, a: Id, b: Id, first: Id, second: Id) {
    && a in extractions && b in extractions && extractions[a].complete && extractions[b].complete
    && extractions[a].document == first && extractions[b].document == second && extractions[a].key == extractions[b].key
  }

  /** The check made before anything is written: duplicates against their canonical row only. */
  ghost predicate PreCheck(docs: Documents.Table, extractions: Extractions) {
    forall a, b, d | d in Duplicates(docs) :: !Collide(extractions, a, b, d, Canonical(docs, d))
  }

  lemma CanonicalIsCanonical(docs: Documents.Table, id: Id)
    requires id in docs
    ensures Canonical(docs, Canonical(docs, id)) == Canonical(docs, id)
    ensures Canonical(docs, id) !in Duplicates(docs)
    ensures forall other | other in docs && docs[other].textHash == docs[id].textHash ::
              Canonical(docs, other) == Canonical(docs, id) && Newest(docs, other) == Newest(docs, id)
  {
    hide Group;
  }

  /** Re-pointing one more duplicate re-points exactly the references that name it. */
  lemma TargetStep(docs: Documents.Table, gone: set<Id>, d: Id, x: Id)
    requires gone <= Duplicates(docs) && d in Duplicates(docs) && d !in gone
    ensures Target(docs, gone + {d}, x)
            == if Target(docs, gone, x) == d then Canonical(docs, d) else Target(docs, gone, x)
  {
    hide Canonical;
    if x in docs {
      CanonicalIsCanonical(docs, x);
    }
  }

  lemma TargetOfTarget(docs: Documents.Table, gone: set<Id>, id: Id)
    requires gone <= Duplicates(docs)
    ensures Target(docs, Duplicates(docs), Target(docs, gone, id)) == Target(docs, Duplicates(docs), id)
  {
    hide Canonical;
    if id in docs {
      CanonicalIsCanonical(docs, id);
    }
  }

  /** Partly re-pointed extractions respect the index whenever fully re-pointed ones do. */
  lemma PartlyMergeable(docs: Documents.Table, extractions: Extractions, gone: set<Id>)
    requires gone <= Duplicates(docs)
    ensures Mergeable(docs, extractions) ==> OneComplete(PartExtractions(docs, extractions, gone))
  {
    hide Target, Duplicates;
    var full, part := PartExtractions(docs, extractions, Duplicates(docs)), PartExtractions(docs, extractions, gone);
    forall e | e in extractions ensures full[e].document == Target(docs, Duplicates(docs), part[e].document) {
      TargetOfTarget(docs, gone, extractions[e].document);
    }
  }

  lemma CollisionPreventsMerge(docs: Documents.Table, extractions: Extractions, a: Id, b: Id, d: Id)
    requires d in Duplicates(docs) && Collide(extractions, a, b, d, Canonical(docs, d))
    ensures !Mergeable(docs, extractions)
  {
    hide Canonical;
    CanonicalIsCanonical(docs, d);
    var full := PartExtractions(docs, extractions, Duplicates(docs));
    assert a in full && b in full && full[a].document == full[b].document;
  }

  /** What the pre-check rejects cannot be merged. */
  lemma PreCheckIsNecessary(docs: Documents.Table, extractions: Extractions)
    ensures Mergeable(docs, extractions) ==> PreCheck(docs, extractions)
  {
    hide Canonical, Mergeable, Collide;
    if !PreCheck(docs, extractions) {
      var a, b, d :| d in Duplicates(docs) && Collide(extractions, a, b, d, Canonical(docs, d));
      CollisionPreventsMerge(docs, extractions, a, b, d);
    }
  }

  ghost predicate Pairs(docs: Documents.Table) {
    forall id | id in docs :: |Sharing(docs, docs[id].textHash)| <= 2
  }

  /** Where no text has more than two rows the pre-check decides the merge. */
  lemma PreCheckSufficesForPairs(docs: Documents.Table, extractions: Extractions)
    requires OneComplete(extractions) && Pairs(docs)
    ensures PreCheck(docs, extractions) <==> Mergeable(docs, extractions)
  {
    hide Pairs, Duplicates, Canonical, Target;
    PreCheckIsNecessary(docs, extractions);
    var full := PartExtractions(docs, extractions, Duplicates(docs));
    forall a, b | PreCheck(docs, extractions) && a in full && b in full && full[a].complete && full[b].complete
                  && full[a].document == full[b].document && full[a].key == full[b].key
      ensures a == b
    {
      var d, e := extractions[a].document, extractions[b].document;
      PairTargets(docs, d, e);
      assert Collide(extractions, a, b, d, e) && Collide(extractions, b, a, e, d);
    }
  }

  /** References that end on one row named that row or its single duplicate. */
  lemma PairTargets(docs: Documents.Table, d: Id, e: Id)
    requires Pairs(docs)
    requires Target(docs, Duplicates(docs), d) == Target(docs, Duplicates(docs), e)
    ensures d == e || (d in Duplicates(docs) && e == Canonical(docs, d))
        || (e in Duplicates(docs) && d == Canonical(docs, e))
  {
    hide Canonical;
    if d in Duplicates(docs) && e in Duplicates(docs) {
      var c, s := Canonical(docs, d), Sharing(docs, docs[d].textHash);
      assert {c, d, e} <= s && c !in {d, e};
      AtMostTwo(s, c, d, e);
    }
  }

  lemma AtMostTwo(s: set<Id>, c: Id, d: Id, e: Id)
    requires c in s && d in s && e in s && c != d && c != e
    ensures |s| <= 2 ==> d == e
  {
    if d != e {
      assert |s - {c} - {d} - {e}| == |s| - 3;
    }
  }

  /** Two complete extractions for one key, on two rows. */
  function TwoComplete(first: Id, second: Id): Extractions {
    map[0 := Extraction(first, ("", "", ""), true, JNull), 1 := Extraction(second, ("", "", ""), true, JNull)]
  }

  /** Any text with three rows or more admits extractions that pass the pre-check although
      the unique index forbids their merge: one on each of two duplicates. */
  lemma PreCheckMissesLargerGroups(docs: Documents.Table, id: Id)
    requires id in docs && |Sharing(docs, docs[id].textHash)| > 2
    ensures var g := Group(docs, docs[id].textHash);
      && |g| > 2
      && var x := TwoComplete(g[1], g[2]);
      && OneComplete(x) && PreCheck(docs, x) && !Mergeable(docs, x)
  {
    var g := Group(docs, docs[id].textHash);
    YoungerRow(docs, docs[id].textHash, 1);
    YoungerRow(docs, docs[id].textHash, 2);
    assert AgeOrder(docs)(g[1], g[2]);
    hide Canonical, Group, OneComplete, PreCheck, Mergeable, Duplicates;
    DuplicatesCollide(docs, g[1], g[2]);
  }

  /** Two duplicates of one row, each with a complete extraction for one key. */
  lemma DuplicatesCollide(docs: Documents.Table, d: Id, e: Id)
    requires d in Duplicates(docs) && e in Duplicates(docs) && d != e && Canonical(docs, d) == Canonical(docs, e)
    ensures var x := TwoComplete(d, e);
      OneComplete(x) && PreCheck(docs, x) && !Mergeable(docs, x)
  {
    hide Canonical, Sharing, OneComplete, PreCheck, Mergeable, Duplicates, TwoComplete;
    DuplicatesPassTheCheck(docs, d, e);
    MergedOntoOneRow(docs, d, e);
  }

  lemma DuplicatesPassTheCheck(docs: Documents.Table, d: Id, e: Id)
    requires d in Duplicates(docs) && e in Duplicates(docs) && d != e
    ensures OneComplete(TwoComplete(d, e)) && PreCheck(docs, TwoComplete(d, e))
  {
    hide Canonical, Sharing;
    var x := TwoComplete(d, e);
    forall a, b, dup | dup in Duplicates(docs) ensures !Collide(x, a, b, dup, Canonical(docs, dup)) {
      CanonicalIsCanonical(docs, dup);
      hide Duplicates;
      assert Canonical(docs, dup) != d && Canonical(docs, dup) != e;
    }
  }

  lemma MergedOntoOneRow(docs: Documents.Table, d: Id, e: Id)
    requires d in Duplicates(docs) && e in Duplicates(docs) && Canonical(docs, d) == Canonical(docs, e)
    ensures !Mergeable(docs, TwoComplete(d, e))
  {
    hide Canonical, Sharing;
    assert Target(docs, Duplicates(docs), d) == Target(docs, Duplicates(docs), e);
    hide Duplicates, Target;
    var full := PartExtractions(docs, TwoComplete(d, e), Duplicates(docs));
    assert 0 in full && 1 in full && full[0].document == full[1].document;
  }

  lemma YoungerRow(docs: Documents.Table, t: Documents.TextHash, k: nat)
    requires 0 < k < |Group(docs, t)|
    ensures var g := Group(docs, t);
      g[k] in Duplicates(docs) && Canonical(docs, g[k]) == g[0] && g[0] !in Duplicates(docs)
  {
    hide Ranking, StrictTotal;
    var g := Group(docs, t);
    assert g[0] in Elements(g) && g[k] in Elements(g) && AgeOrder(docs)(g[0], g[k]);
  }

  /** The pre-check decides the merge for every choice of extractions exactly when no text
      has more than two rows. */
  lemma PreCheckDecidesExactlyForPairs(docs: Documents.Table)
    ensures Pairs(docs) <==> forall x: Extractions | OneComplete(x) :: PreCheck(docs, x) <==> Mergeable(docs, x)
  {
    hide OneComplete, PreCheck, Mergeable, Group, Sharing;
    if Pairs(docs) {
      forall x: Extractions | OneComplete(x) ensures PreCheck(docs, x) <==> Mergeable(docs, x) {
        PreCheckSufficesForPairs(docs, x);
      }
    } else {
      var id :| id in docs && |Sharing(docs, docs[id].textHash)| > 2;
      PreCheckMissesLargerGroups(docs, id);
    }
  }

  lemma CanonicalIsOldest(docs: Documents.Table, id: Id)
    requires id in docs
    ensures forall other | other in docs && docs[other].textHash == docs[id].textHash ::
              docs[Canonical(docs, id)].createdAt <= docs[other].createdAt <= docs[Newest(docs, id)].createdAt
  {
    hide Ranking, StrictTotal;
    var g := Group(docs, docs[id].textHash);
    GroupOf(docs, id);
    forall other | other in docs && docs[other].textHash == docs[id].textHash
      ensures docs[g[0]].createdAt <= docs[other].createdAt <= docs[g[|g| - 1]].createdAt
    {
      assert other in Elements(g);
      var i :| 0 <= i < |g| && g[i] == other;
      assert (i == 0 || AgeOrder(docs)(g[0], g[i])) && (i == |g| - 1 || AgeOrder(docs)(g[i], g[|g| - 1]));
    }
  }

  // ------------------------------------------------------------------- the merged tables

  /** A merge in progress: only duplicates are gone, and an updated row has lost them all. */
  ghost predicate InProgress(docs: Documents.Table, gone: set<Id>, done: set<Id>) {
    && gone <= Duplicates(docs)
    && forall c | c in done && c in docs ::
         c !in Duplicates(docs) && forall d | d in Duplicates(docs) && Canonical(docs, d) == c :: d in gone
  }

  /** The row whose bytes a row of a partly merged table carries. */
  ghost function BytesOf(docs: Documents.Table, done: set<Id>, id: Id): (from: Id)
    requires id in docs
    ensures from in docs && docs[from].textHash == docs[id].textHash
  {
    if id in done then Newest(docs, id) else id
  }

  lemma BytesOfInjective(docs: Documents.Table, gone: set<Id>, done: set<Id>, i: Id, j: Id)
    requires InProgress(docs, gone, done)
    requires i in docs && i !in gone && j in docs && j !in gone
    requires BytesOf(docs, done, i) == BytesOf(docs, done, j)
    ensures i == j
  {
    hide Canonical, Newest;
    CanonicalIsCanonical(docs, i);
    assert docs[i].textHash == docs[j].textHash;
    assert Canonical(docs, i) == Canonical(docs, j) && Newest(docs, i) == Newest(docs, j);
  }

  /** Content hashes are unique at every point of the merge. */
  lemma PartKeepsUniqueContent(docs: Documents.Table, gone: set<Id>, done: set<Id>)
    requires Documents.UniqueContent(docs) && InProgress(docs, gone, done)
    ensures Documents.UniqueContent(PartDocuments(docs, gone, done))
  {
    var part := PartDocuments(docs, gone, done);
    assert forall i | i in part :: part[i].contentHash == docs[BytesOf(docs, done, i)].contentHash;
    hide Canonical, Newest, BytesOf, InProgress;
    forall i, j | i in part && j in part && part[i].contentHash == part[j].contentHash
      ensures i == j
    {
      BytesOfInjective(docs, gone, done, i, j);
    }
  }

  /** Updating the canonical row before its duplicates are gone breaks the unique index. */
  lemma UpdatingFirstCollides(docs: Documents.Table, c: Id)
    requires c in docs && c !in Duplicates(docs) && Newest(docs, c) != c
    ensures !Documents.UniqueContent(PartDocuments(docs, {}, {c}))
  {
    var part, n := PartDocuments(docs, {}, {c}), Newest(docs, c);
    assert c in part && n in part && part[c].contentHash == part[n].contentHash;
  }

  /** The merged table meets the runtime invariant: one row per text and per content. */
  lemma MergedIsSound(docs: Documents.Table, env: Documents.Env)
    requires Documents.UniqueContent(docs) && RowsOk(docs, env)
    ensures Documents.TableOk(Merged(docs), env)
  {
    hide Canonical, Newest, Documents.RowOk, RowsOk, Merged, Documents.UniqueContent, Documents.UniqueText;
    MergedIsUnique(docs);
    forall c | c in Merged(docs) ensures Documents.RowOk(Merged(docs)[c], env) {
      KeptRow(docs, c, env);
    }
  }

  /** The merge loses no text, and what it keeps of each is the oldest row. */
  lemma MergedKeepsTexts(docs: Documents.Table, env: Documents.Env)
    requires RowsOk(docs, env)
    ensures forall id | id in docs ::
              Canonical(docs, id) in Merged(docs) && Merged(docs)[Canonical(docs, id)].text == docs[id].text
    ensures forall c | c in Merged(docs) :: KeepsOldest(docs, c)
  {
    hide Canonical, Newest, RowsOk, KeepsOldest;
    forall id | id in docs
      ensures Canonical(docs, id) in Merged(docs) && docs[Canonical(docs, id)].text == docs[id].text
    {
      KeptText(docs, id, env);
    }
    forall c | c in Merged(docs) ensures KeepsOldest(docs, c) {
      KeepsOldestRow(docs, c, env);
    }
  }

  ghost predicate RowsOk(docs: Documents.Table, env: Documents.Env) {
    forall id | id in docs :: Documents.RowOk(docs[id], env)
  }

  lemma KeptText(docs: Documents.Table, id: Id, env: Documents.Env)
    requires id in docs && RowsOk(docs, env)
    ensures Canonical(docs, id) in Merged(docs) && docs[Canonical(docs, id)].text == docs[id].text
  {
    hide Canonical, Newest;
    CanonicalIsCanonical(docs, id);
    assert Documents.RowOk(docs[id], env) && Documents.RowOk(docs[Canonical(docs, id)], env);
  }

  lemma KeptRow(docs: Documents.Table, c: Id, env: Documents.Env)
    requires c in Merged(docs) && RowsOk(docs, env)
    ensures Documents.RowOk(Merged(docs)[c], env)
  {
    hide Canonical, Newest;
    assert Documents.RowOk(docs[Newest(docs, c)], env) && Documents.RowOk(docs[c], env);
  }

  lemma KeepsOldestRow(docs: Documents.Table, c: Id, env: Documents.Env)
    requires c in Merged(docs) && RowsOk(docs, env)
    ensures KeepsOldest(docs, c)
  {
    hide Canonical, Newest;
    CanonicalIsOldest(docs, c);
    assert Documents.RowOk(docs[Newest(docs, c)], env) && Documents.RowOk(docs[c], env);
    forall other | other in docs && docs[other].text == docs[c].text
      ensures docs[other].textHash == docs[c].textHash
    {
      assert Documents.RowOk(docs[other], env);
    }
  }

  /** A row the merge keeps is the oldest of its text, as it was but for the provenance,
      which is that of the newest row of the text. */
  ghost predicate KeepsOldest(docs: Documents.Table, c: Id)
    requires c in Merged(docs)
  {
    var row, n := Merged(docs)[c], docs[Newest(docs, c)];
    && n.text == docs[c].text
    && row == docs[c].(url := n.url, fetchedAt := n.fetchedAt, contentHash := n.contentHash, raw := n.raw)
    && forall other | other in docs && docs[other].text == docs[c].text ::
         docs[c].createdAt <= docs[other].createdAt <= n.createdAt
  }

  lemma MergedIsUnique(docs: Documents.Table)
    requires Documents.UniqueContent(docs)
    ensures Documents.UniqueContent(Merged(docs)) && Documents.UniqueText(Merged(docs))
  {
    hide Canonical, Newest;
    var kept := docs.Keys - Duplicates(docs);
    assert InProgress(docs, Duplicates(docs), kept);
    PartKeepsUniqueContent(docs, Duplicates(docs), kept);
    assert Merged(docs) == PartDocuments(docs, Duplicates(docs), kept);
    forall i, j | i in Merged(docs) && j in Merged(docs) && docs[i].textHash == docs[j].textHash
      ensures i == j
    {
      CanonicalIsCanonical(docs, i);
    }
  }

  /** Every job and extraction is still there, differs at most in its document, and names a
      surviving row of the same text. */
  lemma MergedReferences(docs: Documents.Table, jobs: Queue.Table, extractions: Extractions)
    requires forall j | j in jobs && jobs[j].document.Some? :: jobs[j].document.value in docs
    requires forall e | e in extractions :: extractions[e].document in docs
    ensures var after := PartJobs(docs, jobs, Duplicates(docs));
      after.Keys == jobs.Keys && forall j | j in jobs ::
        && after[j] == jobs[j].(document := after[j].document)
        && (jobs[j].document.Some? <==> after[j].document.Some?)
        && (jobs[j].document.Some? ==> SameText(docs, after[j].document.value, jobs[j].document.value))
    ensures var after := PartExtractions(docs, extractions, Duplicates(docs));
      after.Keys == extractions.Keys && forall e | e in extractions ::
        && after[e] == extractions[e].(document := after[e].document)
        && SameText(docs, after[e].document, extractions[e].document)
  {
    hide Canonical, Newest, Target, SameText, Duplicates;
    forall id | id in docs ensures SameText(docs, Target(docs, Duplicates(docs), id), id) {
      TargetSameText(docs, id);
    }
  }

  lemma TargetSameText(docs: Documents.Table, id: Id)
    requires id in docs
    ensures SameText(docs, Target(docs, Duplicates(docs), id), id)
  {
    hide Canonical, Newest;
    CanonicalIsCanonical(docs, id);
  }

  /** A row of the merged table with the text that row `id` had. */
  predicate SameText(docs: Documents.Table, kept: Id, id: Id) {
    kept in Merged(docs) && kept in docs && id in docs && Merged(docs)[kept].textHash == docs[id].textHash
  }

  /** Where every text has one row already the merge changes nothing. */
  lemma NothingToMerge(docs: Documents.Table)
    requires Documents.UniqueText(docs)
    ensures Merged(docs) == docs && Duplicates(docs) == {}
  {
    forall id | id in docs ensures Canonical(docs, id) == id && Newest(docs, id) == id {
      hide Canonical, Newest;
    }
  }

  /** The fetch that stored a row. */
  function FetchOf(row: Documents.Document, contentType: Option<string>): Documents.Fetched {
    Documents.Fetched(row.raw, row.url, contentType)
  }

  /** The rows of a group as the visits that stored them. */
  function VisitsOf(docs: Documents.Table, g: seq<Id>, types: Id -> Option<string>): (v: seq<Documents.Visit>)
    requires forall id | id in g :: id in docs
    ensures |v| == |g|
  {
    if g == [] then []
    else
      var row := docs[g[0]];
      [Documents.Visit(Ok(FetchOf(row, types(g[0]))), row.source, g[0], row.fetchedAt)] + VisitsOf(docs, g[1..], types)
  }

  /** Row `id` holds what its fetch read. */
  predicate StoredAsRead(docs: Documents.Table, id: Id, types: Id -> Option<string>, env: Documents.Env)
    requires id in docs
  {
    && docs[id].contentHash == Documents.ContentHash(docs[id].raw)
    && docs[id].textHash == Documents.TextHash(docs[id].text)
    && Documents.Read(FetchOf(docs[id], types(id)), env)
       == Ok((docs[id].format, Documents.Parsed(docs[id].title, docs[id].text)))
  }

  /** Visiting one more row of a text that is already stored moves the bytes. */
  lemma VisitMoves(docs: Documents.Table, id: Id, c: Id, row: Documents.Document, types: Id -> Option<string>,
                   env: Documents.Env)
    requires id in docs && StoredAsRead(docs, id, types, env)
    requires row.text == docs[id].text && row.textHash == docs[id].textHash
    ensures var v := Documents.Visit(Ok(FetchOf(docs[id], types(id))), docs[id].source, id, docs[id].fetchedAt);
      Documents.Ingest(map[c := row], v, env, false) == (map[c := WithProvenance(row, docs[id])], Ok(c))
  {
    var table: Documents.Table := map[c := row];
    assert c in table && table[c].textHash == Documents.TextHash(docs[id].text);
    assert Documents.WithText(table, docs[id].text) == Some(c);
    var w := Documents.Move(c, docs[id].url, docs[id].raw, docs[id].fetchedAt);
    assert Documents.Perform(table, w) == map[c := WithProvenance(row, docs[id])];
  }

  lemma {:induction false} VisitsMove(docs: Documents.Table, g: seq<Id>, c: Id, row: Documents.Document,
                                      types: Id -> Option<string>, env: Documents.Env)
    requires forall id | id in g :: id in docs
    requires forall id | id in g ::
               StoredAsRead(docs, id, types, env) && row.text == docs[id].text && row.textHash == docs[id].textHash
    ensures var (table, results) := Documents.History(map[c := row], VisitsOf(docs, g, types), env, false);
      && table == map[c := if g == [] then row else WithProvenance(row, docs[g[|g| - 1]])]
      && forall k | 0 <= k < |results| :: results[k] == Ok(c)
    decreases |g|
  {
    hide Documents.Ingest, StoredAsRead;
    if g != [] {
      var next := WithProvenance(row, docs[g[0]]);
      VisitMoves(docs, g[0], c, row, types, env);
      VisitsMove(docs, g[1..], c, next, types, env);
      assert VisitsOf(docs, g, types)[1..] == VisitsOf(docs, g[1..], types);
      assert g != [g[0]] ==> g[1..][|g| - 2] == g[|g| - 1];
    }
  }

  lemma VisitInserts(docs: Documents.Table, id: Id, types: Id -> Option<string>, env: Documents.Env)
    requires id in docs && StoredAsRead(docs, id, types, env)
    ensures var v := Documents.Visit(Ok(FetchOf(docs[id], types(id))), docs[id].source, id, docs[id].fetchedAt);
      Documents.Ingest(map[], v, env, false) == (map[id := docs[id].(createdAt := docs[id].fetchedAt)], Ok(id))
  {
    assert Documents.WithText(map[], docs[id].text).None?;
  }

  /** Ingest by text, given the fetches that stored the rows of a text, oldest first, ends with
      the merged row, created at the time of its first fetch, and answers each with that row. */
  lemma MergeMatchesIngest(docs: Documents.Table, c: Id, types: Id -> Option<string>, env: Documents.Env)
    requires c in Merged(docs) && forall id | id in docs :: StoredAsRead(docs, id, types, env)
    ensures var g := Group(docs, docs[c].textHash);
      && (forall id | id in g :: id in docs)
      && var (table, results) := Documents.History(map[], VisitsOf(docs, g, types), env, false);
      && table == map[c := Merged(docs)[c].(createdAt := docs[c].fetchedAt)]
      && forall k | 0 <= k < |results| :: results[k] == Ok(c)
  {
    hide Group, Merged, Duplicates, Canonical, Newest, Documents.Ingest, StoredAsRead;
    MergedRow(docs, c);
    var g := Group(docs, docs[c].textHash);
    forall id | id in g ensures docs[id].text == docs[c].text && docs[id].textHash == docs[c].textHash {
      SameTextAsRead(docs, id, c, types, env);
    }
    VisitInserts(docs, c, types, env);
    VisitsMove(docs, g[1..], c, docs[c].(createdAt := docs[c].fetchedAt), types, env);
    assert VisitsOf(docs, g, types)[1..] == VisitsOf(docs, g[1..], types);
    assert |g| > 1 ==> g[1..][|g| - 2] == g[|g| - 1];
  }

  lemma MergedRow(docs: Documents.Table, c: Id)
    requires c in Merged(docs)
    ensures c in docs
    ensures var g := Group(docs, docs[c].textHash);
      && g != [] && g[0] == c && (forall id | id in g :: id in docs && docs[id].textHash == docs[c].textHash)
      && Merged(docs)[c] == WithProvenance(docs[c], docs[g[|g| - 1]])
  {
    GroupOf(docs, c);
    hide Group;
  }

  lemma SameTextAsRead(docs: Documents.Table, id: Id, c: Id, types: Id -> Option<string>, env: Documents.Env)
    requires id in docs && c in docs && docs[id].textHash == docs[c].textHash
    requires StoredAsRead(docs, id, types, env) && StoredAsRead(docs, c, types, env)
    ensures docs[id].text == docs[c].text
  {
  }
}

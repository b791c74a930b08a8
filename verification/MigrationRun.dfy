/** The merge as the migration runs it: one statement at a time, inside one transaction. */
module MigrationRun {
  import opened Common
  import opened Ordering
  import opened Migration
  import Documents
  import Queue

  /** One row of the GROUP BY: a text and the ids that share it, oldest first. */
  type Grouped = (Documents.TextHash, seq<Id>)

  datatype Outcome = Done | RefusedByCheck | RefusedByIndex

  predicate Listed(groups: seq<Grouped>, t: Documents.TextHash) {
    exists i :: 0 <= i < |groups| && groups[i].0 == t
  }

  ghost predicate GroupsOf(docs: Documents.Table, groups: seq<Grouped>) {
    && (forall i | 0 <= i < |groups| :: |groups[i].1| > 1 && groups[i].1 == Group(docs, groups[i].0))
    && (forall i, j | 0 <= i < j < |groups| :: groups[i].0 != groups[j].0)
  }

  /** The result of the GROUP BY: every text with more than one row, once. */
  ghost predicate Grouping(docs: Documents.Table, groups: seq<Grouped>) {
    GroupsOf(docs, groups) && forall d | d in Duplicates(docs) :: Listed(groups, docs[d].textHash)
  }

  lemma NoGroups(docs: Documents.Table)
    ensures GroupsOf(docs, []) && forall t :: !Listed([], t)
    ensures forall d | d in Duplicates(docs) :: d in docs
  {
  }

  /** One more text of the GROUP BY. */
  lemma AddGroup(docs: Documents.Table, groups: seq<Grouped>, t: Documents.TextHash)
    requires GroupsOf(docs, groups) && !Listed(groups, t)
    ensures var ids := Group(docs, t);
      if |ids| > 1 then
        && GroupsOf(docs, groups + [(t, ids)])
        && forall u :: Listed(groups + [(t, ids)], u) <==> Listed(groups, u) || u == t
      else forall d | d in Duplicates(docs) :: docs[d].textHash != t
  {
    hide Group, Canonical;
    var ids := Group(docs, t);
    if |ids| > 1 {
      var all := groups + [(t, ids)];
      ListedNext(all, |groups|);
      assert all[..|groups|] == groups && all[..|groups| + 1] == all;
      NotListedMeans(groups, t);
    } else {
      forall d | d in Duplicates(docs) ensures docs[d].textHash != t {
        DuplicateIsGrouped(docs, d);
      }
    }
  }

  lemma NotListedMeans(groups: seq<Grouped>, t: Documents.TextHash)
    requires !Listed(groups, t)
    ensures forall i | 0 <= i < |groups| :: groups[i].0 != t
  {
  }

  lemma ListedNext(groups: seq<Grouped>, i: nat)
    requires i < |groups|
    ensures forall t :: Listed(groups[..i + 1], t) <==> Listed(groups[..i], t) || t == groups[i].0
  {
    assert groups[..i + 1] == groups[..i] + [groups[i]];
    assert groups[..i + 1][i] == groups[i];
    forall t | Listed(groups[..i], t) ensures Listed(groups[..i + 1], t) {
      var k :| 0 <= k < i && groups[..i][k].0 == t;
      assert groups[..i + 1][k].0 == t;
    }
  }

  function RepointedJobs(jobs: Queue.Table, duplicate: Id, canonical: Id): Queue.Table {
    map j | j in jobs ::
      if jobs[j].document == Some(duplicate) then jobs[j].(document := Some(canonical)) else jobs[j]
  }

  function RepointedExtractions(extractions: Extractions, duplicate: Id, canonical: Id): Extractions {
    map e | e in extractions ::
      if extractions[e].document == duplicate then extractions[e].(document := canonical) else extractions[e]
  }

  /** One duplicate's three statements take a partly merged state to the next one. */
  lemma OneDuplicate(docs: Documents.Table, jobs: Queue.Table, extractions: Extractions,
                     gone: set<Id>, done: set<Id>, d: Id)
    requires gone <= Duplicates(docs) && d in Duplicates(docs) && d !in gone
    ensures RepointedJobs(PartJobs(docs, jobs, gone), d, Canonical(docs, d)) == PartJobs(docs, jobs, gone + {d})
    ensures RepointedExtractions(PartExtractions(docs, extractions, gone), d, Canonical(docs, d))
            == PartExtractions(docs, extractions, gone + {d})
    ensures PartDocuments(docs, gone, done) - {d} == PartDocuments(docs, gone + {d}, done)
  {
    hide Canonical, Newest, Target;
    forall x ensures Target(docs, gone + {d}, x)
                     == if Target(docs, gone, x) == d then Canonical(docs, d) else Target(docs, gone, x)
    {
      TargetStep(docs, gone, d, x);
    }
  }

  /** What the GROUP BY says about the k-th row of one text. */
  lemma GroupRow(docs: Documents.Table, t: Documents.TextHash, k: nat)
    requires k < |Group(docs, t)|
    ensures var ids := Group(docs, t);
      && ids[k] in docs && docs[ids[k]].textHash == t
      && Canonical(docs, ids[k]) == ids[0] && Newest(docs, ids[k]) == ids[|ids| - 1]
      && (ids[k] in Duplicates(docs) <==> k > 0)
      && ids[k] !in Elements(ids[..k])
  {
    hide Ranking, StrictTotal;
    var ids := Group(docs, t);
    assert ids[k] in Elements(ids);
    forall j | 0 <= j < k ensures ids[j] != ids[k] {
      assert AgeOrder(docs)(ids[j], ids[k]);
    }
    hide Group, AgeOrder, Ascending;
  }

  /** The duplicates of one text. */
  ghost function Younger(docs: Documents.Table, t: Documents.TextHash): (s: set<Id>)
    ensures s <= docs.Keys
  {
    set d | d in Duplicates(docs) && docs[d].textHash == t
  }

  lemma GroupDuplicates(docs: Documents.Table, t: Documents.TextHash)
    requires |Group(docs, t)| > 1
    ensures Elements(Group(docs, t)[1..]) == Younger(docs, t)
  {
    var ids := Group(docs, t);
    AgeOrderTotal(docs, Sharing(docs, t));
    TailElements(AgeOrder(docs), ids);
    forall d | d in Sharing(docs, t) ensures Canonical(docs, d) == ids[0] {
      hide Group;
    }
  }

  /** Until its group's turn comes the newest row of a text is untouched. */
  lemma NewestIsUntouched(docs: Documents.Table, t: Documents.TextHash, gone: set<Id>, done: set<Id>)
    requires |Group(docs, t)| > 1 && Elements(Group(docs, t)) !! gone && InProgress(docs, gone, done)
    ensures var last := Group(docs, t)[|Group(docs, t)| - 1];
      last in PartDocuments(docs, gone, done) && PartDocuments(docs, gone, done)[last] == docs[last]
  {
    hide Canonical, Newest, Group;
    var ids := Group(docs, t);
    GroupRow(docs, t, |ids| - 1);
    assert ids[|ids| - 1] in Elements(ids);
  }

  lemma InProgressGrows(docs: Documents.Table, gone: set<Id>, done: set<Id>, d: Id)
    requires InProgress(docs, gone, done) && d in Duplicates(docs)
    ensures gone <= Duplicates(docs) && InProgress(docs, gone + {d}, done)
  {
    hide Canonical, Duplicates;
  }

  lemma OneMore(docs: Documents.Table, t: Documents.TextHash, gone: set<Id>, done: set<Id>, k: nat)
    requires 1 <= k < |Group(docs, t)| && Elements(Group(docs, t)) !! gone
    requires InProgress(docs, gone + Elements(Group(docs, t)[1..k]), done)
    ensures var ids, sofar := Group(docs, t), gone + Elements(Group(docs, t)[1..k]);
      && sofar <= Duplicates(docs)
      && ids[k] in Duplicates(docs) && ids[k] !in sofar && Canonical(docs, ids[k]) == ids[0]
      && gone + Elements(ids[1..k + 1]) == sofar + {ids[k]}
      && InProgress(docs, sofar + {ids[k]}, done)
  {
    hide Canonical, Group, Duplicates, InProgress;
    GroupRow(docs, t, k);
    var ids := Group(docs, t);
    assert ids[k] in Elements(ids);
    assert ids[..k] == [ids[0]] + ids[1..k];
    ConcatElements([ids[0]], ids[1..k]);
    assert ids[1..k + 1] == ids[1..k] + [ids[k]];
    ConcatElements(ids[1..k], [ids[k]]);
    assert Elements([ids[k]]) == {ids[k]};
    InProgressGrows(docs, gone + Elements(ids[1..k]), done, ids[k]);
  }

  lemma GroupDone(docs: Documents.Table, t: Documents.TextHash, gone: set<Id>, done: set<Id>)
    requires |Group(docs, t)| > 1 && Elements(Group(docs, t)) !! gone && Group(docs, t)[0] !in done
    requires InProgress(docs, gone + Elements(Group(docs, t)[1..]), done)
    ensures var ids, after := Group(docs, t), gone + Elements(Group(docs, t)[1..]);
      && InProgress(docs, after, done + {ids[0]})
      && ids[0] in PartDocuments(docs, after, done)
      && PartDocuments(docs, after, done)[ids[0]] == docs[ids[0]]
      && PartDocuments(docs, after, done)[ids[0] := WithProvenance(docs[ids[0]], docs[ids[|ids| - 1]])]
         == PartDocuments(docs, after, done + {ids[0]})
  {
    hide Canonical, Newest, Group, PartDocuments, InProgress;
    GroupRow(docs, t, 0);
    assert Group(docs, t)[0] in Elements(Group(docs, t));
    GroupLeavesNoDuplicate(docs, t, gone, done);
    hide Duplicates, Elements;
    UpdateOne(docs, gone + Elements(Group(docs, t)[1..]), done, Group(docs, t)[0]);
  }

  lemma GroupLeavesNoDuplicate(docs: Documents.Table, t: Documents.TextHash, gone: set<Id>, done: set<Id>)
    requires |Group(docs, t)| > 1 && InProgress(docs, gone + Elements(Group(docs, t)[1..]), done)
    ensures InProgress(docs, gone + Elements(Group(docs, t)[1..]), done + {Group(docs, t)[0]})
    ensures Group(docs, t)[0] !in Elements(Group(docs, t)[1..])
  {
    hide Canonical, Newest, Group;
    GroupRow(docs, t, 0);
    GroupDuplicates(docs, t);
    hide Elements;
  }

  /** The canonical row's update is the next stage of the merge. */
  lemma UpdateOne(docs: Documents.Table, gone: set<Id>, done: set<Id>, c: Id)
    requires c in docs && c !in gone && c !in done
    ensures c in PartDocuments(docs, gone, done) && PartDocuments(docs, gone, done)[c] == docs[c]
    ensures PartDocuments(docs, gone, done)[c := WithProvenance(docs[c], docs[Newest(docs, c)])]
            == PartDocuments(docs, gone, done + {c})
  {
    hide Newest;
  }

  ghost predicate Clear(docs: Documents.Table, extractions: Extractions, d: Id)
    requires d in docs
  {
    forall a, b :: !Collide(extractions, a, b, d, Canonical(docs, d))
  }

  /** The duplicates of the first `n` groups, and their canonical rows. */
  ghost function GoneAfter(docs: Documents.Table, groups: seq<Grouped>, n: nat): (s: set<Id>)
    requires n <= |groups|
    ensures s <= Duplicates(docs)
  {
    set d | d in Duplicates(docs) && Listed(groups[..n], docs[d].textHash)
  }

  ghost function DoneAfter(groups: seq<Grouped>, n: nat): set<Id>
    requires n <= |groups|
    requires forall i | 0 <= i < |groups| :: |groups[i].1| > 1
  {
    set i | 0 <= i < n :: groups[i].1[0]
  }

  lemma NextGroup(docs: Documents.Table, groups: seq<Grouped>, n: nat)
    requires GroupsOf(docs, groups) && n < |groups|
    ensures var ids := groups[n].1;
      && ids[0] !in DoneAfter(groups, n) && Elements(ids) !! GoneAfter(docs, groups, n)
      && GoneAfter(docs, groups, n + 1) == GoneAfter(docs, groups, n) + Elements(ids[1..])
      && DoneAfter(groups, n + 1) == DoneAfter(groups, n) + {ids[0]}
  {
    hide Canonical, Newest, Group, Listed;
    var ids, t := groups[n].1, groups[n].0;
    GroupDuplicates(docs, t);
    ListedNext(groups, n);
    NotListedYet(groups, n);
    forall d ensures d in GoneAfter(docs, groups, n + 1) <==> d in GoneAfter(docs, groups, n) + Younger(docs, t) {
      assert d in Duplicates(docs) ==>
               (Listed(groups[..n + 1], docs[d].textHash) <==>
                   Listed(groups[..n], docs[d].textHash) || docs[d].textHash == t);
    }
    forall k | 0 <= k < |ids| ensures docs[ids[k]].textHash == t && ids[k] in docs {
      GroupRow(docs, t, k);
    }
    forall i | 0 <= i < n ensures groups[i].1[0] != ids[0] {
      GroupRow(docs, groups[i].0, 0);
    }
  }

  lemma NotListedYet(groups: seq<Grouped>, n: nat)
    requires n < |groups| && forall i, j | 0 <= i < j < |groups| :: groups[i].0 != groups[j].0
    ensures !Listed(groups[..n], groups[n].0)
  {
  }

  lemma AllGone(docs: Documents.Table, groups: seq<Grouped>)
    requires Grouping(docs, groups)
    ensures GoneAfter(docs, groups, |groups|) == Duplicates(docs)
    ensures PartDocuments(docs, Duplicates(docs), DoneAfter(groups, |groups|)) == Merged(docs)
  {
    hide Canonical, Newest, Group, Listed, DoneAfter;
    assert groups[..|groups|] == groups;
    forall id | id in docs && id !in Duplicates(docs) && id !in DoneAfter(groups, |groups|)
        ensures Newest(docs, id) == id {
      AloneIsNewest(docs, groups, id);
    }
    UntouchedIsMerged(docs, DoneAfter(groups, |groups|));
  }

  /** Where the newest row of a text is the only one, the merge leaves it as it is. */
  lemma UntouchedIsMerged(docs: Documents.Table, done: set<Id>)
    requires forall id | id in docs && id !in Duplicates(docs) && id !in done :: Newest(docs, id) == id
    ensures PartDocuments(docs, Duplicates(docs), done) == Merged(docs)
  {
    hide Canonical, Newest, Duplicates;
  }

  /** A row that no group lists is the only one of its text. */
  lemma AloneIsNewest(docs: Documents.Table, groups: seq<Grouped>, id: Id)
    requires Grouping(docs, groups)
    requires id in docs && id !in Duplicates(docs) && id !in DoneAfter(groups, |groups|)
    ensures Newest(docs, id) == id
  {
    hide Canonical, Newest, Group, Listed;
    CanonicalIsCanonical(docs, id);
    var n := Newest(docs, id);
    if n in Duplicates(docs) {
      assert Listed(groups, docs[id].textHash);
      ListedRow(docs, groups, id);
    }
  }

  lemma ListedRow(docs: Documents.Table, groups: seq<Grouped>, id: Id)
    requires GroupsOf(docs, groups) && id in docs && Listed(groups, docs[id].textHash)
    ensures Canonical(docs, id) in DoneAfter(groups, |groups|)
  {
    var i :| 0 <= i < |groups| && groups[i].0 == docs[id].textHash;
    assert groups[i].1[0] in DoneAfter(groups, |groups|);
  }

  lemma MergeableMeans(docs: Documents.Table, extractions: Extractions)
    ensures Mergeable(docs, extractions) <==> OneComplete(PartExtractions(docs, extractions, Duplicates(docs)))
  {
    hide Canonical, Duplicates;
  }

  ghost predicate GroupClear(docs: Documents.Table, extractions: Extractions, t: Documents.TextHash) {
    forall d | d in Younger(docs, t) :: Clear(docs, extractions, d)
  }

  /** Before the first write nothing is gone and nothing updated. */
  lemma NothingGone(docs: Documents.Table, jobs: Queue.Table, extractions: Extractions)
    ensures InProgress(docs, {}, {})
    ensures PartDocuments(docs, {}, {}) == docs && PartJobs(docs, jobs, {}) == jobs
    ensures PartExtractions(docs, extractions, {}) == extractions
  {
    hide Canonical, Newest;
  }

  lemma NoGroupYet(docs: Documents.Table, groups: seq<Grouped>)
    requires forall i | 0 <= i < |groups| :: |groups[i].1| > 1
    ensures GoneAfter(docs, groups, 0) == {} && DoneAfter(groups, 0) == {}
  {
    hide Duplicates;
  }

  class Tables {
    var documents: Documents.Table
    var jobs: Queue.Table
    var extractions: Extractions

    constructor (documents: Documents.Table, jobs: Queue.Table, extractions: Extractions)
      ensures this.documents == documents && this.jobs == jobs && this.extractions == extractions
    {
      this.documents := documents;
      this.jobs := jobs;
      this.extractions := extractions;
    }

    /** The tables are those of a merge that has reached `gone` and `done`. */
    ghost predicate Reached(docs: Documents.Table, jobs0: Queue.Table, extractions0: Extractions, gone: set<Id>,
                            done: set<Id>)
      reads this
    {
      && InProgress(docs, gone, done)
      && documents == PartDocuments(docs, gone, done)
      && jobs == PartJobs(docs, jobs0, gone)
      && extractions == PartExtractions(docs, extractions0, gone)
    }

    method RepointJobs(duplicate: Id, canonical: Id)
      modifies this`jobs
      ensures jobs == RepointedJobs(old(jobs), duplicate, canonical)
    {
      jobs := RepointedJobs(jobs, duplicate, canonical);
    }

    /** An UPDATE under the partial unique index. */
    method RepointExtractions(duplicate: Id, canonical: Id) returns (ok: bool)
      modifies this`extractions
      ensures ok <==> OneComplete(RepointedExtractions(old(extractions), duplicate, canonical))
      ensures extractions == if ok then RepointedExtractions(old(extractions), duplicate, canonical)
                             else old(extractions)
    {
      var after := RepointedExtractions(extractions, duplicate, canonical);
      ok := OneComplete(after);
      if ok {
        extractions := after;
      }
    }

    method DeleteDocument(id: Id)
      modifies this`documents
      ensures documents == old(documents) - {id}
    {
      documents := documents - {id};
    }

    /** An UPDATE under the unique content hash. */
    method SetProvenance(id: Id, from: Documents.Document) returns (ok: bool)
      requires id in documents
      modifies this`documents
      ensures var after := old(documents)[id := WithProvenance(old(documents)[id], from)];
        && (ok <==> Documents.UniqueContent(after))
        && documents == if ok then after else old(documents)
    {
      var after := documents[id := WithProvenance(documents[id], from)];
      ok := forall i, j | i in after && j in after && after[i].contentHash == after[j].contentHash :: i == j;
      if ok {
        documents := after;
      }
    }

    method SharedTexts() returns (groups: seq<Grouped>)
      ensures Grouping(documents, groups)
    {
      hide Canonical, Group, Duplicates, Listed, GroupsOf;
      NoGroups(documents);
      groups := [];
      var left := set id | id in documents :: documents[id].textHash;
      while left != {}
        invariant GroupsOf(documents, groups)
        invariant forall t | Listed(groups, t) :: t !in left
        invariant forall d | d in Duplicates(documents) ::
                    documents[d].textHash in left || Listed(groups, documents[d].textHash)
        decreases |left|
      {
        var t :| t in left;
        left := left - {t};
        var ids := Group(documents, t);
        AddGroup(documents, groups, t);
        if |ids| > 1 {
          groups := groups + [(t, ids)];
        }
      }
    }

    /** The loop before any write: no duplicate collides with its canonical row. */
    method CheckBeforeMerging(groups: seq<Grouped>) returns (clear: bool)
      requires Grouping(documents, groups)
      ensures clear <==> PreCheck(documents, extractions)
    {
      hide Canonical, Group, GroupClear, PreCheck, Duplicates, Listed;
      for i := 0 to |groups|
        invariant forall g | 0 <= g < i :: GroupClear(documents, extractions, groups[g].0)
      {
        clear := CheckGroup(groups[i].1, groups[i].0);
        if !clear {
          UnclearGroup(documents, extractions, groups[i].0);
          return;
        }
      }
      AllGroupsClear(documents, extractions, groups);
      clear := true;
    }

    method CheckGroup(ids: seq<Id>, ghost t: Documents.TextHash) returns (clear: bool)
      requires ids == Group(documents, t) && |ids| > 1
      ensures clear <==> GroupClear(documents, extractions, t)
    {
      hide Canonical, Group, Collide, Clear, Duplicates, GroupClear;
      for k := 1 to |ids|
        invariant forall j | 1 <= j < k :: ids[j] in documents && Clear(documents, extractions, ids[j])
      {
        GroupRow(documents, t, k);
        ClearInTable(documents, extractions, ids[k]);
        if exists a, b | a in extractions && b in extractions :: Collide(extractions, a, b, ids[k], ids[0]) {
          UnclearRow(documents, extractions, t, k);
          return false;
        }
      }
      AllRowsClear(documents, extractions, t);
      clear := true;
    }

    /** One group: each duplicate in turn, then the canonical row's provenance. */
    method MergeGroup(ids: seq<Id>, ghost t: Documents.TextHash, ghost docs: Documents.Table, ghost jobs0: Queue.Table,
                      ghost extractions0: Extractions, ghost gone: set<Id>, ghost done: set<Id>) returns (ok: bool)
      requires Documents.UniqueContent(docs)
      requires ids == Group(docs, t) && |ids| > 1 && Elements(ids) !! gone && ids[0] !in done
      requires Reached(docs, jobs0, extractions0, gone, done) && OneComplete(extractions)
      modifies this
      ensures ok ==> Reached(docs, jobs0, extractions0, gone + Elements(ids[1..]), done + {ids[0]})
      ensures ok ==> OneComplete(extractions)
      ensures !ok ==> !Mergeable(docs, extractions0)
    {
      hide Canonical, Newest, Group, PartDocuments, PartJobs, PartExtractions, OneComplete, Mergeable, Duplicates,
           RepointedJobs, RepointedExtractions, Documents.UniqueContent, InProgress, Elements, Target;
      GroupRow(docs, t, 0);
      GroupRow(docs, t, |ids| - 1);
      var canonical, last := ids[0], ids[|ids| - 1];
      NewestIsUntouched(docs, t, gone, done);
      var newest := documents[last];
      NoElements(ids[1..1]);
      assert gone + Elements(ids[1..1]) == gone;
      for k := 1 to |ids|
        invariant Reached(docs, jobs0, extractions0, gone + Elements(ids[1..k]), done) && OneComplete(extractions)
      {
        ghost var sofar := gone + Elements(ids[1..k]);
        OneMore(docs, t, gone, done, k);
        OneDuplicate(docs, jobs0, extractions0, sofar, done, ids[k]);
        RepointJobs(ids[k], canonical);
        ok := RepointExtractions(ids[k], canonical);
        if !ok {
          PartlyMergeable(docs, extractions0, sofar + {ids[k]});
          return;
        }
        DeleteDocument(ids[k]);
      }
      ghost var after := gone + Elements(ids[1..]);
      assert ids[1..|ids|] == ids[1..];
      GroupDone(docs, t, gone, done);
      PartKeepsUniqueContent(docs, after, done + {canonical});
      ok := SetProvenance(canonical, newest);
    }

    /** The whole migration, in one transaction: it merges every group or changes nothing. */
    method Merge() returns (outcome: Outcome)
      requires Documents.UniqueContent(documents) && OneComplete(extractions)
      modifies this
      ensures outcome == Done <==> Mergeable(old(documents), old(extractions))
      ensures outcome == RefusedByCheck <==> !PreCheck(old(documents), old(extractions))
      ensures outcome == Done ==>
        && documents == Merged(old(documents))
        && jobs == PartJobs(old(documents), old(jobs), Duplicates(old(documents)))
        && extractions == PartExtractions(old(documents), old(extractions), Duplicates(old(documents)))
        && Documents.UniqueContent(documents) && Documents.UniqueText(documents) && OneComplete(extractions)
      ensures outcome != Done ==>
        documents == old(documents) && jobs == old(jobs) && extractions == old(extractions)
    {
      hide Canonical, Newest, Group, PartDocuments, PartJobs, PartExtractions, OneComplete, Mergeable, Duplicates,
           PreCheck, Documents.UniqueContent, Documents.UniqueText, InProgress, Merged;
      var docs, jobs0, extractions0 := documents, jobs, extractions;
      PreCheckIsNecessary(docs, extractions0);
      var groups := SharedTexts();
      var clear := CheckBeforeMerging(groups);
      if !clear {
        return RefusedByCheck;
      }
      NothingGone(docs, jobs0, extractions0);
      NoGroupYet(docs, groups);
      for i := 0 to |groups|
        invariant Reached(docs, jobs0, extractions0, GoneAfter(docs, groups, i), DoneAfter(groups, i))
        invariant OneComplete(extractions)
      {
        NextGroup(docs, groups, i);
        var ok := MergeGroup(groups[i].1, groups[i].0, docs, jobs0, extractions0,
                             GoneAfter(docs, groups, i), DoneAfter(groups, i));
        if !ok {
          documents, jobs, extractions := docs, jobs0, extractions0;
          return RefusedByIndex;
        }
      }
      AllGone(docs, groups);
      MergedIsUnique(docs);
      MergeableMeans(docs, extractions0);
      outcome := Done;
    }
  }

  lemma UnclearGroup(docs: Documents.Table, extractions: Extractions, t: Documents.TextHash)
    requires !GroupClear(docs, extractions, t)
    ensures !PreCheck(docs, extractions)
  {
    hide Canonical, Collide;
  }

  lemma AllGroupsClear(docs: Documents.Table, extractions: Extractions, groups: seq<Grouped>)
    requires Grouping(docs, groups)
    requires forall g | 0 <= g < |groups| :: GroupClear(docs, extractions, groups[g].0)
    ensures PreCheck(docs, extractions)
  {
    hide Canonical, Collide, Group;
    forall d | d in Duplicates(docs) ensures Clear(docs, extractions, d) {
      var g :| 0 <= g < |groups| && groups[g].0 == docs[d].textHash;
      assert d in Younger(docs, groups[g].0);
    }
  }

  lemma IndexOf(s: seq<Id>, x: Id) returns (i: nat)
    requires x in Elements(s)
    ensures i < |s| && s[i] == x
  {
    i :| i < |s| && s[i] == x;
  }

  lemma UnclearRow(docs: Documents.Table, extractions: Extractions, t: Documents.TextHash, k: nat)
    requires 0 < k < |Group(docs, t)| && Group(docs, t)[k] in docs && !Clear(docs, extractions, Group(docs, t)[k])
    ensures !GroupClear(docs, extractions, t)
  {
    hide Canonical, Group, Clear;
    GroupRow(docs, t, k);
  }

  lemma AllRowsClear(docs: Documents.Table, extractions: Extractions, t: Documents.TextHash)
    requires var ids := Group(docs, t);
      |ids| > 1 && forall j | 1 <= j < |ids| :: ids[j] in docs && Clear(docs, extractions, ids[j])
    ensures GroupClear(docs, extractions, t)
  {
    hide Canonical, Group, Clear, Duplicates, Elements;
    var ids := Group(docs, t);
    GroupDuplicates(docs, t);
    forall d | d in Younger(docs, t) ensures Clear(docs, extractions, d) {
      var j := IndexOf(ids[1..], d);
      assert d == ids[j + 1];
    }
  }

  lemma ClearInTable(docs: Documents.Table, extractions: Extractions, d: Id)
    requires d in docs
    ensures Clear(docs, extractions, d) <==>
            !exists a, b | a in extractions && b in extractions :: Collide(extractions, a, b, d, Canonical(docs, d))
  {
    hide Canonical;
  }

  lemma DuplicateIsGrouped(docs: Documents.Table, d: Id)
    requires d in Duplicates(docs)
    ensures |Group(docs, docs[d].textHash)| > 1
  {
    var g := Group(docs, docs[d].textHash);
    assert d in Elements(g) && g[0] == Canonical(docs, d) != d;
  }
}

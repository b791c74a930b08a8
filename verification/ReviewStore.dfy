/** The writing half of the review loop: the `field_reviews` table and the three
    operations that change it in place. */
module ReviewStore {
  import opened Common
  import opened Ordering
  import opened Review

  datatype RoutingResult = RoutingResult(eligible: nat, outstandingBefore: nat, routed: seq<Id>)

  datatype RoutingError = NegativeBudget

  /** The order of the rows a pass returns: confidence, then field. */
  predicate ReturnBefore(i: Id, a: FieldReview, j: Id, b: FieldReview) {
    || a.confidence < b.confidence
    || (a.confidence == b.confidence && (a.field < b.field || (a.field == b.field && i < j)))
  }

  function ReturnOrder(rows: Table): (Id, Id) -> bool {
    (i, j) => i in rows && j in rows && ReturnBefore(i, rows[i], j, rows[j])
  }

  lemma ReturnOrderTotal(rows: Table, s: set<Id>)
    requires s <= rows.Keys
    ensures StrictTotal(ReturnOrder(rows), s)
  {
  }

  /** Among rows of one confidence the older one has the earlier field. */
  predicate AgeFollowsField(rows: Table, s: set<Id>) {
    forall i, j | i in s && j in s && i in rows && j in rows
                  && rows[i].confidence == rows[j].confidence && rows[i].createdAt < rows[j].createdAt ::
      rows[i].field < rows[j].field || (rows[i].field == rows[j].field && i < j)
  }

  /** The returned list is in rank order exactly when age and field agree among rows of one
      confidence. */
  lemma ReturnedInRankOrder(rows: Table, s: set<Id>, routed: seq<Id>)
    requires s <= rows.Keys && Elements(routed) == s && Ascending(ReturnOrder(rows), routed)
    ensures Ascending(RankOrder(rows), routed) <==> AgeFollowsField(rows, s)
  {
    if Ascending(RankOrder(rows), routed) {
      forall i, j | i in s && j in s && rows[i].confidence == rows[j].confidence
          && rows[i].createdAt < rows[j].createdAt
        ensures ReturnBefore(i, rows[i], j, rows[j])
      {
        var x :| 0 <= x < |routed| && routed[x] == i;
        var y :| 0 <= y < |routed| && routed[y] == j;
        assert x == y || RankOrder(rows)(routed[y], routed[x]) || ReturnOrder(rows)(routed[x], routed[y]);
      }
    }
    if AgeFollowsField(rows, s) {
      forall x, y | 0 <= x < y < |routed| ensures RankOrder(rows)(routed[x], routed[y]) {
        assert routed[x] in s && routed[y] in s && ReturnOrder(rows)(routed[x], routed[y]);
      }
    }
  }

  /** Two fields of one confidence, the one with the later name in the older row. */
  function OlderLaterField(record: Record, confidence: Confidence): Table {
    map[7 := NewRow(1, 1, record, confidence, 10), 8 := NewRow(2, 0, record, confidence, 20)]
  }

  /** A pass that ranks one field first and returns the other one first. */
  lemma ReturnOrderIsNotRankOrder(record: Record, confidence: Confidence, floor: real, routed: seq<Id>)
    requires confidence[0] == confidence[1] < floor
    requires var rows := OlderLaterField(record, confidence);
      Elements(routed) == RouteSet(rows, floor, None) && Ascending(ReturnOrder(rows), routed)
    ensures RankEligible(OlderLaterField(record, confidence), floor) == [7, 8] && routed == [8, 7]
  {
    hide RouteSet, Eligible, StrictTotal, Ranking, RankEligible;
    var rows := OlderLaterField(record, confidence);
    BothAreRouted(record, confidence, floor);
    RankOrderTotal(rows, {7, 8});
    ReturnOrderTotal(rows, {7, 8});
    TwoElements(7, 8);
    TwoElements(8, 7);
    hide Elements;
    AscendingUnique(RankOrder(rows), RankEligible(rows, floor), [7, 8]);
    AscendingUnique(ReturnOrder(rows), routed, [8, 7]);
  }

  lemma TwoElements(i: Id, j: Id)
    ensures Elements([i, j]) == {i, j}
  {
  }

  lemma BothAreRouted(record: Record, confidence: Confidence, floor: real)
    requires confidence[0] == confidence[1] < floor
    ensures var rows := OlderLaterField(record, confidence);
      && RouteSet(rows, floor, None) == {7, 8}
      && Elements(RankEligible(rows, floor)) == {7, 8} && Ascending(RankOrder(rows), RankEligible(rows, floor))
  {
    var rows := OlderLaterField(record, confidence);
    assert Eligible(rows, floor) == {7, 8};
    RankOrderTotal(rows, {7, 8});
    RouteSetFacts(rows, floor, None);
    hide RouteSet, Eligible, StrictTotal, Ranking;
    SubsetSize(RouteSet(rows, floor, None), {7, 8});
  }

  /** SQL's LIMIT, where a null limit is no limit. */
  function Limited(ids: seq<Id>, limit: Option<nat>): seq<Id> {
    if limit.None? || |ids| <= limit.value then ids else ids[..limit.value]
  }

  /** Topping the queue up to the budget selects what the routing policy prescribes. */
  lemma LimitSelectsRouteSet(rows: Table, floor: real, budget: Option<nat>)
    ensures var outstanding := |RoutedIds(rows)|;
      var limit := if budget.None? then None
                   else Some(if budget.value > outstanding then budget.value - outstanding else 0);
      Elements(Limited(RankEligible(rows, floor), limit)) == RouteSet(rows, floor, budget)
  {
    hide RankEligible;
    var ranked := RankEligible(rows, floor);
    assert ranked[..|ranked|] == ranked;
  }

  lemma LimitedAreRows(rows: Table, floor: real, limit: Option<nat>)
    ensures Elements(Limited(RankEligible(rows, floor), limit)) <= rows.Keys
  {
    RankOrderTotal(rows, Eligible(rows, floor));
    var ranked := RankEligible(rows, floor);
    assert Elements(Limited(ranked, limit)) <= Elements(ranked) == Eligible(rows, floor);
  }

  lemma NothingWithinZero(ids: seq<Id>)
    ensures Elements(Limited(ids, Some(0))) == {}
  {
  }

  /** A pass in SQL's terms: with nothing left in the limit it changes and returns nothing,
      otherwise it marks the limited ranking. */
  lemma PassByLimit(rows: Table, floor: real, budget: Option<nat>, now: Time)
    ensures var outstanding := |RoutedIds(rows)|;
      var limit := if budget.None? then None
                   else Some(if budget.value > outstanding then budget.value - outstanding else 0);
      var chosen := Elements(Limited(RankEligible(rows, floor), limit));
      && chosen == RouteSet(rows, floor, budget) <= rows.Keys
      && Route(rows, floor, budget, now) == MarkRouted(rows, chosen, now)
      && (limit == Some(0) ==>
            && Route(rows, floor, budget, now) == rows
            && Elements<Id>([]) == chosen && Ascending(ReturnOrder(rows), []))
  {
    LimitSelectsRouteSet(rows, floor, budget);
    RouteSetFacts(rows, floor, budget);
    NothingWithinZero(RankEligible(rows, floor));
    MarkNone(rows, now);
    hide RankEligible, RouteSet, Limited, MarkRouted;
  }

  lemma MarkNone(rows: Table, now: Time)
    ensures MarkRouted(rows, {}, now) == rows
  {
  }

  /** What one pass leaves and returns: the policy's table and counts, and the routed set by
      confidence and field, which is rank order exactly when age and field agree. */
  ghost predicate PassResult(before: Table, floor: real, budget: Option<nat>, now: Time, after: Table,
                             result: RoutingResult) {
    var routed := RouteSet(before, floor, budget);
    && after == Route(before, floor, budget, now)
    && result.eligible == |Eligible(before, floor)|
    && result.outstandingBefore == |RoutedIds(before)|
    && Elements(result.routed) == routed && Ascending(ReturnOrder(before), result.routed)
    && (Ascending(RankOrder(before), result.routed) <==> AgeFollowsField(before, routed))
  }

  class ReviewStore {
    var rows: Table
    const validate: Validator

    constructor (validate: Validator)
      ensures rows == map[] && this.validate == validate
    {
      this.rows := map[];
      this.validate := validate;
    }

    /** One row per record field; `None` when a unique constraint refuses the insert. */
    method CreateFieldReviews(extraction: Id, ids: seq<Id>, record: Record, confidence: Confidence, now: Time)
      returns (written: Option<nat>)
      modifies this`rows
      ensures written == if CanInsert(old(rows), extraction, ids) then Some(FIELD_COUNT) else None
      ensures rows == Apply(old(rows), Extracted(extraction, ids, record, confidence, now), validate)
      ensures TableOk(old(rows), validate) ==> TableOk(rows, validate)
    {
      StepKeeps(Extracted(extraction, ids, record, confidence, now));
      if !CanInsert(rows, extraction, ids) {
        return None;
      }
      rows := rows + NewRows(extraction, ids, record, confidence, now);
      written := Some(|ids|);
    }

    method RoutePending(floor: real, budget: Option<int>, now: Time)
      returns (result: Result<RoutingResult, RoutingError>)
      modifies this`rows
      ensures result.Err? <==> budget.Some? && budget.value < 0
      ensures result.Err? ==> rows == old(rows)
      ensures result.Ok? ==>
        var cap: Option<nat> := if budget.None? then None else Some(budget.value);
        PassResult(old(rows), floor, cap, now, rows, result.value)
      ensures TableOk(old(rows), validate) ==> TableOk(rows, validate)
    {
      if budget.Some? && budget.value < 0 {
        return Err(NegativeBudget);
      }
      hide RankEligible, Eligible, RouteSet, Route, TableOk, Limited, Ascending, Elements, RankOrder, ReturnOrder,
           AgeFollowsField, MarkRouted, RoutedIds, RankBefore, ReturnBefore, Apply;
      ghost var before := rows;
      ghost var cap: Option<nat> := if budget.None? then None else Some(budget.value);
      RouteKeeps(floor, cap, now);
      PassByLimit(rows, floor, cap, now);
      var eligible := |Eligible(rows, floor)|;
      var outstandingBefore := |RoutedIds(rows)|;
      var limit: Option<nat> := None;
      if budget.Some? {
        limit := Some(if budget.value > outstandingBefore then budget.value - outstandingBefore else 0);
      }
      var routed: seq<Id> := [];
      if limit.None? || limit.value > 0 {
        routed := UpdateReturning(floor, limit, now);
      }
      ReturnedInRankOrder(before, RouteSet(before, floor, cap), routed);
      result := Ok(RoutingResult(eligible, outstandingBefore, routed));
    }

    /** UPDATE ... WHERE id IN (SELECT ... ORDER BY ... LIMIT) RETURNING, sorted. */
    method UpdateReturning(floor: real, limit: Option<nat>, now: Time) returns (routed: seq<Id>)
      modifies this`rows
      ensures var chosen := Elements(Limited(RankEligible(old(rows), floor), limit));
        && rows == MarkRouted(old(rows), chosen, now)
        && Elements(routed) == chosen && Ascending(ReturnOrder(old(rows)), routed)
    {
      RankOrderTotal(rows, Eligible(rows, floor));
      var chosen := Elements(Limited(RankEligible(rows, floor), limit));
      assert chosen <= rows.Keys by { LimitedAreRows(rows, floor, limit); }
      ReturnOrderTotal(rows, chosen);
      routed := Ranking(ReturnOrder(rows), chosen);
      rows := MarkRouted(rows, chosen, now);
    }

    method RecordDecision(id: Id, action: Action, reviewer: Option<string>, note: Option<string>, now: Time)
      returns (result: Result<FieldReview, ReviewError>)
      modifies this`rows
      ensures result == Decide(old(rows), id, action, reviewer, note, now, validate)
      ensures rows == Apply(old(rows), Act(id, action, reviewer, note, now), validate)
      ensures result.Ok? ==> id in rows && rows[id] == result.value
      ensures TableOk(old(rows), validate) ==> TableOk(rows, validate)
    {
      StepKeeps(Act(id, action, reviewer, note, now));
      if id !in rows {
        return Err(NotFound);
      }
      var current := rows[id];
      if current.state == Reviewed {
        return Err(AlreadyReviewed);
      }
      if action.Skip? {
        if current.state != Routed {
          return Err(NotRouted);
        }
        rows := rows[id := current.(skipCount := current.skipCount + 1, lastSkippedAt := Some(now))];
        return Ok(rows[id]);
      }
      var name := StripOptional(reviewer);
      if name == "" {
        return Err(InvalidCorrection);
      }
      if action.Accept? {
        rows := rows[id := current.(state := Reviewed, decision := Some(Accepted), reviewer := Some(name),
                                    note := note, reviewedAt := Some(now))];
        return Ok(rows[id]);
      }
      var value := validate(current.field, action.value);
      if value.None? || value.value == current.modelValue {
        return Err(InvalidCorrection);
      }
      rows := rows[id := current.(state := Reviewed, decision := Some(Corrected), correctedValue := value,
                                  reviewer := Some(name), note := note, reviewedAt := Some(now))];
      result := Ok(rows[id]);
    }

    lemma RouteKeeps(floor: real, budget: Option<nat>, now: Time)
      ensures TableOk(rows, validate) ==> TableOk(Route(rows, floor, budget, now), validate)
    {
      hide TableOk, Route;
      StepKeeps(Pass(floor, budget, now));
    }

    lemma StepKeeps(e: Event)
      ensures TableOk(rows, validate) ==> TableOk(Apply(rows, e, validate), validate)
    {
      if TableOk(rows, validate) {
        StepKeepsTable(rows, e, validate);
      }
    }
  }
}

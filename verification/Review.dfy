/** The review loop: which extracted fields get a human (routing), what a human
    may do with them (decisions), and in which order they are shown (the queue).
    The table `field_reviews` is a map from row id to row. */
module Review {
  import opened Common
  import opened Ordering

  const FIELD_COUNT: nat := 23

  /** A top-level record field, numbered in the order of its name. */
  type Field = f: nat | f < FIELD_COUNT witness 0

  datatype ReviewState = Unreviewed | Routed | Reviewed

  datatype Decision = Accepted | Corrected

  datatype FieldReview = FieldReview(
    extraction: Id,
    field: Field,
    confidence: real,
    modelValue: Json,
    state: ReviewState,
    routedAt: Option<Time>,
    skipCount: nat,
    lastSkippedAt: Option<Time>,
    decision: Option<Decision>,
    correctedValue: Option<Json>,
    reviewer: Option<string>,
    note: Option<string>,
    reviewedAt: Option<Time>,
    createdAt: Time
  )

  type Table = map<Id, FieldReview>

  /** Checks a value against a field's type; `Some` of the normalised value when it fits. */
  type Validator = (Field, Json) -> Option<Json>

  // ---------------------------------------------------------------- constraints

  /** The CHECK constraints of `field_reviews`. */
  predicate SatisfiesChecks(row: FieldReview) {
    && ((row.state == Reviewed) <==> (row.decision.Some? && row.reviewer.Some? && row.reviewedAt.Some?))
    && (row.state == Reviewed || (row.decision.None? && row.reviewer.None? && row.reviewedAt.None?))
    && ((row.decision == Some(Corrected)) <==> row.correctedValue.Some?)
    && (row.state == Routed ==> row.routedAt.Some?)
  }

  /** A recorded correction is a value of the field's type other than the model's. */
  ghost predicate CorrectionFits(row: FieldReview, validate: Validator) {
    row.correctedValue.Some? ==>
      && row.correctedValue.value != row.modelValue
      && exists v :: validate(row.field, v) == Some(row.correctedValue.value)
  }

  /** UNIQUE (extraction_id, field). */
  ghost predicate OneRowPerField(rows: Table) {
    forall i, j | i in rows && j in rows && rows[i].extraction == rows[j].extraction
                  && rows[i].field == rows[j].field :: i == j
  }

  ghost predicate TableOk(rows: Table, validate: Validator) {
    && (forall id | id in rows :: SatisfiesChecks(rows[id]) && CorrectionFits(rows[id], validate))
    && OneRowPerField(rows)
  }

  // ------------------------------------------------------------------- creation

  type Record = r: seq<Json> | |r| == FIELD_COUNT witness seq(FIELD_COUNT, i => JNull)

  type Confidence = c: seq<real> | |c| == FIELD_COUNT witness seq(FIELD_COUNT, i => 0.0)

  predicate Distinct(ids: seq<Id>) {
    forall i, j | 0 <= i < j < |ids| :: ids[i] != ids[j]
  }

  function NewRow(extraction: Id, field: Field, record: Record, confidence: Confidence, now: Time): FieldReview {
    FieldReview(extraction, field, confidence[field], record[field], Unreviewed, None, 0, None,
                None, None, None, None, None, now)
  }

  /** One unreviewed row for every record field of a complete extraction. */
  function NewRows(extraction: Id, ids: seq<Id>, record: Record, confidence: Confidence, now: Time): (rows: Table)
    requires |ids| == FIELD_COUNT && Distinct(ids)
    ensures rows.Keys == Elements(ids)
    ensures forall f: Field :: ids[f] in rows && rows[ids[f]] == NewRow(extraction, f, record, confidence, now)
  {
    map f: Field | 0 <= f < FIELD_COUNT :: ids[f] := NewRow(extraction, f, record, confidence, now)
  }

  /** A new row is unreviewed, was never routed, skipped or decided, and copies the model's value. */
  lemma NewRowsAreFresh(extraction: Id, ids: seq<Id>, record: Record, confidence: Confidence, now: Time, f: Field)
    requires |ids| == FIELD_COUNT && Distinct(ids)
    ensures var row := NewRows(extraction, ids, record, confidence, now)[ids[f]];
      && row.extraction == extraction && row.field == f && row.modelValue == record[f]
      && row.confidence == confidence[f] && row.createdAt == now
      && row.state == Unreviewed && row.skipCount == 0
      && row.routedAt.None? && row.lastSkippedAt.None? && row.reviewedAt.None?
      && row.decision.None? && row.correctedValue.None? && row.reviewer.None? && row.note.None?
  {
    hide Distinct;
  }

  /** The insert is accepted: no primary key and no (extraction, field) pair is taken. */
  predicate CanInsert(rows: Table, extraction: Id, ids: seq<Id>) {
    && |ids| == FIELD_COUNT && Distinct(ids)
    && (forall id | id in ids :: id !in rows)
    && (forall id | id in rows :: rows[id].extraction != extraction)
  }

  // -------------------------------------------------------------------- routing

  /** ORDER BY confidence, created_at, field, with the row id as the last tie-break. */
  predicate RankBefore(i: Id, a: FieldReview, j: Id, b: FieldReview) {
    || a.confidence < b.confidence
    || (a.confidence == b.confidence
        && (|| a.createdAt < b.createdAt
            || (a.createdAt == b.createdAt
                && (a.field < b.field || (a.field == b.field && i < j)))))
  }

  function RankOrder(rows: Table): (Id, Id) -> bool {
    (i, j) => i in rows && j in rows && RankBefore(i, rows[i], j, rows[j])
  }

  lemma RankOrderTotal(rows: Table, s: set<Id>)
    requires s <= rows.Keys
    ensures StrictTotal(RankOrder(rows), s)
  {
  }

  function Eligible(rows: Table, floor: real): set<Id> {
    set id | id in rows && rows[id].state == Unreviewed && rows[id].confidence < floor
  }

  function RoutedIds(rows: Table): set<Id> {
    set id | id in rows && rows[id].state == Routed
  }

  /** The unreviewed fields below the floor, in routing order. */
  function RankEligible(rows: Table, floor: real): (r: seq<Id>) {
    RankOrderTotal(rows, Eligible(rows, floor));
    Ranking(RankOrder(rows), Eligible(rows, floor))
  }

  /** How many of `eligible` fields a pass may route. */
  function RouteCount(budget: Option<nat>, outstanding: nat, eligible: nat): (n: nat)
    ensures n <= eligible
  {
    match budget
    case None => eligible
    case Some(b) =>
      var limit := if b > outstanding then b - outstanding else 0;
      if limit < eligible then limit else eligible
  }

  function RouteSet(rows: Table, floor: real, budget: Option<nat>): (s: set<Id>) {
    var ranked := RankEligible(rows, floor);
    Elements(ranked[..RouteCount(budget, |RoutedIds(rows)|, |ranked|)])
  }

  function MarkRouted(rows: Table, ids: set<Id>, now: Time): Table {
    map id | id in rows ::
      if id in ids then rows[id].(state := Routed, routedAt := Some(now)) else rows[id]
  }

  /** One routing pass over the table. */
  function Route(rows: Table, floor: real, budget: Option<nat>, now: Time): Table {
    MarkRouted(rows, RouteSet(rows, floor, budget), now)
  }

  lemma RouteSetFacts(rows: Table, floor: real, budget: Option<nat>)
    ensures var s := RouteSet(rows, floor, budget);
      && s <= Eligible(rows, floor)
      && |s| == RouteCount(budget, |RoutedIds(rows)|, |Eligible(rows, floor)|)
      && forall x, y | x in s && y in Eligible(rows, floor) - s :: RankOrder(rows)(x, y)
  {
    var e := Eligible(rows, floor);
    RankOrderTotal(rows, e);
    RankingTake(RankOrder(rows), e, RouteCount(budget, |RoutedIds(rows)|, |e|));
  }

  /** A pass in the table's own terms: it routes unreviewed rows below the floor and writes their
      state and time, and fills the queue as far as the budget and such rows allow. */
  lemma PassFillsQueue(rows: Table, floor: real, budget: Option<nat>, now: Time)
    ensures var s, after := RouteSet(rows, floor, budget), Route(rows, floor, budget, now);
      && after.Keys == rows.Keys
      && (forall id | id in rows ::
            && (id in s ==> rows[id].state == Unreviewed && rows[id].confidence < floor)
            && after[id] == if id in s then rows[id].(state := Routed, routedAt := Some(now)) else rows[id])
      && (budget.None? ==>
            forall id | id in rows && rows[id].state == Unreviewed && rows[id].confidence < floor :: id in s)
      && (budget.Some? ==>
            |RoutedIds(after)| >= budget.value
            || forall id | id in rows && rows[id].state == Unreviewed && rows[id].confidence < floor :: id in s)
      && (budget.Some? && |RoutedIds(rows)| >= budget.value ==> s == {})
  {
    hide RouteSet;
    RouteSetFacts(rows, floor, budget);
    RouteEffect(rows, floor, budget, now);
    var s := RouteSet(rows, floor, budget);
    SubsetSize(s, Eligible(rows, floor));
    hide Route, RankOrder;
    assert |s| == 0 ==> s == {};
  }

  /** The ranking goes by confidence, then age, then field. */
  lemma RankedRowsAscend(rows: Table, floor: real, i: nat, j: nat)
    requires i < j < |RankEligible(rows, floor)|
    ensures var (x, y) := (RankEligible(rows, floor)[i], RankEligible(rows, floor)[j]);
      && x in rows && y in rows && rows[x].confidence <= rows[y].confidence
      && (rows[x].confidence == rows[y].confidence ==> rows[x].createdAt <= rows[y].createdAt)
      && (rows[x].confidence == rows[y].confidence && rows[x].createdAt == rows[y].createdAt ==>
            rows[x].field <= rows[y].field)
  {
    RankOrderTotal(rows, Eligible(rows, floor));
    hide Ranking, StrictTotal;
    var r := RankEligible(rows, floor);
    assert RankOrder(rows)(r[i], r[j]);
  }

  lemma MarkRoutedEffect(rows: Table, s: set<Id>, floor: real, now: Time)
    requires s <= Eligible(rows, floor)
    ensures RoutedIds(MarkRouted(rows, s, now)) == RoutedIds(rows) + s
    ensures |RoutedIds(MarkRouted(rows, s, now))| == |RoutedIds(rows)| + |s|
    ensures forall g :: Eligible(MarkRouted(rows, s, now), g) == Eligible(rows, g) - s
  {
    assert RoutedIds(rows) !! s;
  }

  lemma RouteEffect(rows: Table, floor: real, budget: Option<nat>, now: Time)
    ensures var s, after := RouteSet(rows, floor, budget), Route(rows, floor, budget, now);
      && s <= Eligible(rows, floor)
      && RoutedIds(after) == RoutedIds(rows) + s
      && |RoutedIds(after)| == |RoutedIds(rows)| + |s|
      && forall g :: Eligible(after, g) == Eligible(rows, g) - s
  {
    RouteSetFacts(rows, floor, budget);
    MarkRoutedEffect(rows, RouteSet(rows, floor, budget), floor, now);
  }

  /** Ranking at a lower floor is a prefix of the ranking at a higher one. */
  lemma LowerFloorIsPrefix(rows: Table, low: real, high: real)
    requires low <= high
    ensures RankEligible(rows, low) <= RankEligible(rows, high)
  {
    var e, rest := Eligible(rows, low), Eligible(rows, high) - Eligible(rows, low);
    RankOrderTotal(rows, e + rest);
    assert e + rest == Eligible(rows, high);
    RankingSplits(RankOrder(rows), e, rest);
  }

  predicate BudgetAtMost(a: Option<nat>, b: Option<nat>) {
    b.None? || (a.Some? && a.value <= b.value)
  }

  /** Once the first `n` eligible fields are routed, the rest keep their order. */
  lemma RankEligibleAfter(rows: Table, floor: real, s: set<Id>, n: nat, now: Time)
    requires n <= |RankEligible(rows, floor)| && s == Elements(RankEligible(rows, floor)[..n])
    ensures s <= Eligible(rows, floor) && |s| == n
    ensures RankEligible(MarkRouted(rows, s, now), floor) == RankEligible(rows, floor)[n..]
  {
    var e, mid := Eligible(rows, floor), MarkRouted(rows, s, now);
    RankOrderTotal(rows, e);
    RankingTake(RankOrder(rows), e, n);
    MarkRoutedEffect(rows, s, floor, now);
    RankOrderTotal(mid, e - s);
    RankingAgrees(RankOrder(rows), RankOrder(mid), e - s);
  }

  lemma CountsAdd(budget1: Option<nat>, budget2: Option<nat>, outstanding: nat, eligible1: nat, eligible2: nat)
    requires BudgetAtMost(budget1, budget2) && eligible1 <= eligible2
    ensures var n1 := RouteCount(budget1, outstanding, eligible1);
      n1 + RouteCount(budget2, outstanding + n1, eligible2 - n1) == RouteCount(budget2, outstanding, eligible2)
  {
  }

  /** A pass followed by a laxer pass routes exactly what the laxer pass alone would. */
  lemma IncrementalRouting(rows: Table, floor1: real, budget1: Option<nat>, now1: Time,
                           floor2: real, budget2: Option<nat>)
    requires floor1 <= floor2 && BudgetAtMost(budget1, budget2)
    ensures RouteSet(rows, floor1, budget1)
            + RouteSet(Route(rows, floor1, budget1, now1), floor2, budget2)
            == RouteSet(rows, floor2, budget2)
  {
    hide RankEligible, MarkRouted, RoutedIds, Eligible, Elements;
    var some, all := RankEligible(rows, floor1), RankEligible(rows, floor2);
    var n1 := RouteCount(budget1, |RoutedIds(rows)|, |some|);
    LowerFloorIsPrefix(rows, floor1, floor2);
    assert some[..n1] == all[..n1];
    RouteAfterTake(rows, floor2, budget2, all[..n1], now1);
    RouteEffect(rows, floor1, budget1, now1);
    CountsAdd(budget1, budget2, |RoutedIds(rows)|, |some|, |all|);
    TakeThenTake(all, n1, RouteCount(budget2, |RoutedIds(rows)| + n1, |all| - n1));
  }

  lemma RouteAfterTake(rows: Table, floor: real, budget: Option<nat>, first: seq<Id>, now: Time)
    requires first <= RankEligible(rows, floor)
    ensures var all, n := RankEligible(rows, floor), |first|;
      RouteSet(MarkRouted(rows, Elements(first), now), floor, budget)
      == Elements(all[n..][..RouteCount(budget, |RoutedIds(rows)| + n, |all| - n)])
  {
    hide RankEligible;
    var s := Elements(first);
    RankEligibleAfter(rows, floor, s, |first|, now);
    MarkRoutedEffect(rows, s, floor, now);
  }

  lemma TakeThenTake(all: seq<Id>, n: nat, m: nat)
    requires n + m <= |all|
    ensures Elements(all[..n]) + Elements(all[n..][..m]) == Elements(all[..n + m])
  {
    assert all[..n] + all[n..][..m] == all[..n + m];
    ConcatElements(all[..n], all[n..][..m]);
  }

  /** With no decisions in between, repeating a pass routes nothing. */
  lemma RepeatedPassRoutesNothing(rows: Table, floor: real, budget: Option<nat>, now: Time)
    ensures RouteSet(Route(rows, floor, budget, now), floor, budget) == {}
  {
    IncrementalRouting(rows, floor, budget, now, floor, budget);
    RouteEffect(rows, floor, budget, now);
    RouteSetFacts(Route(rows, floor, budget, now), floor, budget);
    var first, again := RouteSet(rows, floor, budget), RouteSet(Route(rows, floor, budget, now), floor, budget);
    assert again <= first && again * first == {};
    assert again == again * first;
  }

  // ------------------------------------------------- what a pass selects, and how much

  ghost function TotalConfidence(rows: Table, s: set<Id>): real
    requires s <= rows.Keys
  {
    if s == {} then 0.0 else
      var id :| id in s;
      rows[id].confidence + TotalConfidence(rows, s - {id})
  }

  lemma {:induction false} TotalConfidenceRemove(rows: Table, s: set<Id>, id: Id)
    requires s <= rows.Keys && id in s
    ensures TotalConfidence(rows, s) == rows[id].confidence + TotalConfidence(rows, s - {id})
  {
    var pick :| pick in s && TotalConfidence(rows, s) == rows[pick].confidence + TotalConfidence(rows, s - {pick});
    if pick != id {
      TotalConfidenceRemove(rows, s - {pick}, id);
      TotalConfidenceRemove(rows, s - {id}, pick);
      assert s - {pick} - {id} == s - {id} - {pick};
    }
  }

  /** Replacing rows by as many rows of no smaller confidence cannot lower the total. */
  lemma {:induction false} TotalConfidenceExchange(rows: Table, low: set<Id>, high: set<Id>)
    requires low <= rows.Keys && high <= rows.Keys && |low| == |high|
    requires forall x, y | x in low && y in high :: rows[x].confidence <= rows[y].confidence
    ensures TotalConfidence(rows, low) <= TotalConfidence(rows, high)
    decreases |low|
  {
    if low != {} {
      var x :| x in low;
      var y :| y in high;
      TotalConfidenceRemove(rows, low, x);
      TotalConfidenceRemove(rows, high, y);
      TotalConfidenceExchange(rows, low - {x}, high - {y});
    }
  }

  lemma {:induction false} TotalConfidenceUnion(rows: Table, a: set<Id>, b: set<Id>)
    requires a + b <= rows.Keys && a !! b
    ensures TotalConfidence(rows, a + b) == TotalConfidence(rows, a) + TotalConfidence(rows, b)
  {
    if a == {} {
      assert a + b == b;
    } else {
      var x :| x in a;
      TotalConfidenceRemove(rows, a + b, x);
      TotalConfidenceRemove(rows, a, x);
      assert a + b - {x} == (a - {x}) + b;
      TotalConfidenceUnion(rows, a - {x}, b);
    }
  }

  /** Among all equally large sets of eligible fields a pass picks one of least total confidence. */
  lemma RoutedSetIsLeastConfident(rows: Table, floor: real, budget: Option<nat>, other: set<Id>)
    requires other <= Eligible(rows, floor) && |other| == |RouteSet(rows, floor, budget)|
    ensures RouteSet(rows, floor, budget) <= rows.Keys
    ensures TotalConfidence(rows, RouteSet(rows, floor, budget)) <= TotalConfidence(rows, other)
  {
    hide RouteSet, Eligible, RankOrder, TotalConfidence;
    RouteSetFacts(rows, floor, budget);
    EligibleAreRows(rows, floor);
    var s := RouteSet(rows, floor, budget);
    LeftOutIsNoLess(rows, floor, s, other);
    DifferencesMatch(s, other);
    TotalConfidenceExchange(rows, s - other, other - s);
    TotalConfidenceUnion(rows, s * other, s - other);
    TotalConfidenceUnion(rows, s * other, other - s);
  }

  lemma EligibleAreRows(rows: Table, floor: real)
    ensures Eligible(rows, floor) <= rows.Keys
  {
  }

  /** No eligible row left out has a smaller confidence than a routed one. */
  lemma LeftOutIsNoLess(rows: Table, floor: real, s: set<Id>, other: set<Id>)
    requires s <= Eligible(rows, floor) && other <= Eligible(rows, floor)
    requires forall x, y | x in s && y in Eligible(rows, floor) - s :: RankOrder(rows)(x, y)
    ensures forall x, y | x in s - other && y in other - s ::
              x in rows && y in rows && rows[x].confidence <= rows[y].confidence
  {
    EligibleAreRows(rows, floor);
    forall x, y | x in s - other && y in other - s ensures rows[x].confidence <= rows[y].confidence {
      assert y in Eligible(rows, floor) - s && RankOrder(rows)(x, y);
    }
  }

  /** Sets of one size differ in as many elements on either side. */
  lemma DifferencesMatch(a: set<Id>, b: set<Id>)
    requires |a| == |b|
    ensures |a - b| == |b - a| && a == a * b + (a - b) && b == a * b + (b - a)
  {
    assert a == a * b + (a - b) && b == a * b + (b - a);
    assert |a| == |a * b| + |a - b| && |b| == |a * b| + |b - a|;
  }

  // ------------------------------------------------------------------ decisions

  datatype Action = Accept | Correct(value: Json) | Skip

  datatype ReviewError = NotFound | AlreadyReviewed | NotRouted | InvalidCorrection

  function StripOptional(s: Option<string>): string {
    match s case None => "" case Some(t) => Strip(t)
  }

  /** The row after one reviewer action, or why the action is refused. */
  function Decide(rows: Table, id: Id, action: Action, reviewer: Option<string>, note: Option<string>,
                  now: Time, validate: Validator): Result<FieldReview, ReviewError>
  {
    if id !in rows then Err(NotFound) else
    var row := rows[id];
    if row.state == Reviewed then Err(AlreadyReviewed) else
    if action.Skip? then
      if row.state != Routed then Err(NotRouted)
      else Ok(row.(skipCount := row.skipCount + 1, lastSkippedAt := Some(now)))
    else
    var name := StripOptional(reviewer);
    if name == "" then Err(InvalidCorrection) else
    var decided := row.(state := Reviewed, reviewer := Some(name), note := note, reviewedAt := Some(now));
    if action.Accept? then Ok(decided.(decision := Some(Accepted))) else
    match validate(row.field, action.value)
    case None => Err(InvalidCorrection)
    case Some(v) =>
      if v == row.modelValue then Err(InvalidCorrection)
      else Ok(decided.(decision := Some(Corrected), correctedValue := Some(v)))
  }

  /** Everything that can happen to the table. */
  datatype Event =
    | Extracted(extraction: Id, ids: seq<Id>, record: Record, confidence: Confidence, at: Time)
    | Pass(floor: real, budget: Option<nat>, at: Time)
    | Act(id: Id, action: Action, reviewer: Option<string>, note: Option<string>, at: Time)

  function Apply(rows: Table, e: Event, validate: Validator): Table {
    match e
    case Extracted(extraction, ids, record, confidence, at) =>
      if CanInsert(rows, extraction, ids) then rows + NewRows(extraction, ids, record, confidence, at) else rows
    case Pass(floor, budget, at) => Route(rows, floor, budget, at)
    case Act(id, action, reviewer, note, at) =>
      match Decide(rows, id, action, reviewer, note, at, validate) {
        case Ok(row) => rows[id := row]
        case Err(_) => rows
      }
  }

  function Run(rows: Table, events: seq<Event>, validate: Validator): Table
    decreases |events|
  {
    if events == [] then rows else Run(Apply(rows, events[0], validate), events[1..], validate)
  }

  /** The part of a row that is fixed when it is created. */
  predicate SameSubject(a: FieldReview, b: FieldReview) {
    && a.extraction == b.extraction && a.field == b.field && a.confidence == b.confidence
    && a.modelValue == b.modelValue && a.createdAt == b.createdAt
  }

  predicate LegalMove(a: FieldReview, b: FieldReview) {
    && SameSubject(a, b)
    && (a.state == Reviewed ==> b == a)
    && (a.state == Routed ==> b.state != Unreviewed)
    && a.skipCount <= b.skipCount
    && (b.state == Routed && a.state == Routed ==> b.routedAt == a.routedAt)
    && (a.correctedValue.Some? ==> b.correctedValue == a.correctedValue)
  }

  ghost predicate Evolves(rows: Table, after: Table) {
    forall id | id in rows :: id in after && LegalMove(rows[id], after[id])
  }

  lemma DecideEvolves(rows: Table, id: Id, action: Action, reviewer: Option<string>, note: Option<string>,
                      now: Time, validate: Validator)
    requires TableOk(rows, validate) && Decide(rows, id, action, reviewer, note, now, validate).Ok?
    ensures id in rows && LegalMove(rows[id], Decide(rows, id, action, reviewer, note, now, validate).value)
  {
    assert SatisfiesChecks(rows[id]);
  }

  lemma StepEvolves(rows: Table, e: Event, validate: Validator)
    requires TableOk(rows, validate)
    ensures Evolves(rows, Apply(rows, e, validate))
  {
    hide RouteSet, Decide;
    match e
    case Extracted(_, _, _, _, _) =>
    case Pass(floor, budget, _) =>
      RouteSetFacts(rows, floor, budget);
    case Act(id, action, reviewer, note, at) =>
      if Decide(rows, id, action, reviewer, note, at, validate).Ok? {
        DecideEvolves(rows, id, action, reviewer, note, at, validate);
      }
  }

  lemma PassKeepsTable(rows: Table, s: set<Id>, floor: real, now: Time, validate: Validator)
    requires TableOk(rows, validate) && s <= Eligible(rows, floor)
    ensures TableOk(MarkRouted(rows, s, now), validate)
  {
  }

  lemma InsertKeepsTable(rows: Table, extraction: Id, ids: seq<Id>, record: Record, confidence: Confidence,
                         now: Time, validate: Validator)
    requires TableOk(rows, validate) && CanInsert(rows, extraction, ids)
    ensures TableOk(rows + NewRows(extraction, ids, record, confidence, now), validate)
  {
    var added := NewRows(extraction, ids, record, confidence, now);
    forall id | id in added
      ensures id !in rows && exists f: Field ::
          ids[f] == id && added[id] == NewRow(extraction, f, record, confidence, now)
    {
      assert id in ids;
      var f :| 0 <= f < FIELD_COUNT && ids[f] == id;
    }
  }

  lemma ActKeepsTable(rows: Table, id: Id, row: FieldReview, validate: Validator)
    requires TableOk(rows, validate)
    requires id in rows && SameSubject(rows[id], row) && SatisfiesChecks(row) && CorrectionFits(row, validate)
    ensures TableOk(rows[id := row], validate)
  {
  }

  lemma DecideIsSound(rows: Table, id: Id, action: Action, reviewer: Option<string>, note: Option<string>,
                      now: Time, validate: Validator)
    requires TableOk(rows, validate) && Decide(rows, id, action, reviewer, note, now, validate).Ok?
    ensures var row := Decide(rows, id, action, reviewer, note, now, validate).value;
      && id in rows && SameSubject(rows[id], row) && SatisfiesChecks(row) && CorrectionFits(row, validate)
  {
    assert SatisfiesChecks(rows[id]) && CorrectionFits(rows[id], validate);
  }

  /** Which actions are refused, and what an applied one records: a skip touches no decision,
      a decision names a reviewer and a time, and a correction is recorded for `correct` alone. */
  lemma DecideRecords(rows: Table, id: Id, action: Action, reviewer: Option<string>, note: Option<string>,
                      now: Time, validate: Validator)
    ensures var result := Decide(rows, id, action, reviewer, note, now, validate);
      && (result == Err(NotFound) <==> id !in rows)
      && (result == Err(AlreadyReviewed) <==> id in rows && rows[id].state == Reviewed)
      && (result == Err(NotRouted) <==> id in rows && rows[id].state == Unreviewed && action.Skip?)
      && (result == Err(InvalidCorrection) <==>
            && !action.Skip? && id in rows && rows[id].state != Reviewed
            && (reviewer.None? || AllSpace(reviewer.value)
                || (action.Correct?
                    && (var v := validate(rows[id].field, action.value); v.None? || v.value == rows[id].modelValue))))
      && (result.Ok? ==>
            var (row, was) := (result.value, rows[id]);
            && (action.Skip? <==> row.state == Routed)
            && (action.Skip? ==> row == was.(skipCount := was.skipCount + 1, lastSkippedAt := Some(now)))
            && (!action.Skip? ==>
                  && row.state == Reviewed && row.reviewedAt == Some(now) && row.note == note
                  && reviewer.Some? && row.reviewer.Some? && row.reviewer.value != ""
                  && LeftOf(reviewer.value, row.reviewer.value)
                  && row.decision == Some(if action.Accept? then Accepted else Corrected)
                  && row.routedAt == was.routedAt && row.skipCount == was.skipCount
                  && (action.Accept? ==> row.correctedValue == was.correctedValue)
                  && (action.Correct? ==> row.correctedValue == validate(was.field, action.value))))
  {
    hide Strip, LeftOf, AllSpace;
    if reviewer.Some? {
      StripIsLeft(reviewer.value);
      StripEmpty(reviewer.value);
    }
  }

  lemma StepKeepsTable(rows: Table, e: Event, validate: Validator)
    requires TableOk(rows, validate)
    ensures TableOk(Apply(rows, e, validate), validate)
  {
    hide TableOk, Eligible, RouteSet;
    match e
    case Extracted(extraction, ids, record, confidence, at) =>
      if CanInsert(rows, extraction, ids) {
        InsertKeepsTable(rows, extraction, ids, record, confidence, at, validate);
      }
    case Pass(floor, budget, at) =>
      RouteSetFacts(rows, floor, budget);
      PassKeepsTable(rows, RouteSet(rows, floor, budget), floor, at, validate);
    case Act(id, action, reviewer, note, at) =>
      var result := Decide(rows, id, action, reviewer, note, at, validate);
      if result.Ok? {
        DecideIsSound(rows, id, action, reviewer, note, at, validate);
        ActKeepsTable(rows, id, result.value, validate);
      }
  }

  /** Over any run: every constraint holds at the end, every row only makes legal
      moves, a reviewed row never changes again and the model's value never changes. */
  lemma {:induction false} RunKeepsTable(rows: Table, events: seq<Event>, validate: Validator)
    requires TableOk(rows, validate)
    ensures TableOk(Run(rows, events, validate), validate)
    ensures Evolves(rows, Run(rows, events, validate))
    decreases |events|
  {
    if events != [] {
      StepEvolves(rows, events[0], validate);
      StepKeepsTable(rows, events[0], validate);
      RunKeepsTable(Apply(rows, events[0], validate), events[1..], validate);
    }
  }

  /** Every table reachable from the empty one satisfies the schema's constraints. */
  lemma ReachableTableOk(events: seq<Event>, validate: Validator)
    ensures TableOk(Run(map[], events, validate), validate)
  {
    RunKeepsTable(map[], events, validate);
  }

  // -------------------------------------------------------------- budget over runs

  predicate AllPassesAt(events: seq<Event>, budget: nat) {
    forall i | 0 <= i < |events| :: events[i].Pass? ==> events[i].budget == Some(budget)
  }

  lemma StepKeepsBudget(rows: Table, e: Event, budget: nat, validate: Validator)
    requires e.Pass? ==> e.budget == Some(budget)
    ensures var before, after := |RoutedIds(rows)|, |RoutedIds(Apply(rows, e, validate))|;
      after <= if before <= budget then budget else before
  {
    match e
    case Extracted(_, ids, _, _, _) =>
      if CanInsert(rows, e.extraction, ids) {
        assert RoutedIds(Apply(rows, e, validate)) == RoutedIds(rows);
      }
    case Pass(floor, b, at) =>
      RouteEffect(rows, floor, b, at);
      RouteSetFacts(rows, floor, b);
    case Act(id, _, _, _, _) =>
      var after := RoutedIds(Apply(rows, e, validate));
      assert after <= RoutedIds(rows);
      SubsetSize(after, RoutedIds(rows));
  }

  /** With every pass at one budget, the queue never grows past the budget once within it. */
  lemma {:induction false} RunKeepsBudget(rows: Table, events: seq<Event>, budget: nat, validate: Validator)
    requires AllPassesAt(events, budget)
    ensures var before, after := |RoutedIds(rows)|, |RoutedIds(Run(rows, events, validate))|;
      after <= if before <= budget then budget else before
    decreases |events|
  {
    if events != [] {
      StepKeepsBudget(rows, events[0], budget, validate);
      RunKeepsBudget(Apply(rows, events[0], validate), events[1..], budget, validate);
    }
  }

  /** An uncapped pass leaves no unreviewed field below the floor. */
  lemma UncappedPassLeavesNoneBelow(rows: Table, floor: real, now: Time)
    ensures Eligible(Route(rows, floor, None, now), floor) == {}
  {
    RouteEffect(rows, floor, None, now);
    RouteSetFacts(rows, floor, None);
    var s, e := RouteSet(rows, floor, None), Eligible(rows, floor);
    assert |e - s| == |e| - |s| == 0;
  }

  // ------------------------------------------------------------------- the queue

  /** ORDER BY last_skipped_at NULLS FIRST, then the routing rank. */
  predicate QueueBefore(i: Id, a: FieldReview, j: Id, b: FieldReview) {
    match (a.lastSkippedAt, b.lastSkippedAt)
    case (None, Some(_)) => true
    case (Some(_), None) => false
    case (None, None) => RankBefore(i, a, j, b)
    case (Some(s), Some(t)) => s < t || (s == t && RankBefore(i, a, j, b))
  }

  function QueueOrder(rows: Table): (Id, Id) -> bool {
    (i, j) => i in rows && j in rows && QueueBefore(i, rows[i], j, rows[j])
  }

  lemma QueueOrderTotal(rows: Table, s: set<Id>)
    requires s <= rows.Keys
    ensures StrictTotal(QueueOrder(rows), s)
  {
  }

  /** The queue in presentation order. */
  function Queue(rows: Table): (q: seq<Id>)
    ensures Elements(q) == RoutedIds(rows) && |q| == |RoutedIds(rows)|
  {
    QueueOrderTotal(rows, RoutedIds(rows));
    Ranking(QueueOrder(rows), RoutedIds(rows))
  }

  /** One page of the queue. */
  function ListQueue(rows: Table, limit: nat, offset: nat): seq<Id> {
    var q := Queue(rows);
    if offset >= |q| then [] else if limit < |q| - offset then q[offset..offset + limit] else q[offset..]
  }

  function NextForReview(rows: Table): Option<Id> {
    var page := ListQueue(rows, 1, 0);
    if page == [] then None else Some(page[0])
  }

  /** The first `n` pages of one size, one after the other. */
  function Pages(rows: Table, limit: nat, n: nat): seq<Id> {
    if n == 0 then [] else Pages(rows, limit, n - 1) + ListQueue(rows, limit, (n - 1) * limit)
  }

  /** Consecutive pages make up the queue from its head, and all of it once there are enough. */
  lemma {:induction false} PagesMakeTheQueue(rows: Table, limit: nat, n: nat)
    ensures Pages(rows, limit, n) == if n * limit <= |Queue(rows)| then Queue(rows)[..n * limit] else Queue(rows)
    ensures forall offset: nat :: |ListQueue(rows, limit, offset)| <= limit
  {
    hide Queue, ListQueue;
    PageFollows(rows, limit, 0);
    if n > 0 {
      PagesMakeTheQueue(rows, limit, n - 1);
      PageFollows(rows, limit, (n - 1) * limit);
      assert n * limit == (n - 1) * limit + limit;
    }
  }

  /** A page continues the queue where the pages before it end. */
  lemma PageFollows(rows: Table, limit: nat, at: nat)
    ensures var q := Queue(rows);
      if at + limit <= |q| then q[..at] + ListQueue(rows, limit, at) == q[..at + limit]
      else if at <= |q| then q[..at] + ListQueue(rows, limit, at) == q
      else ListQueue(rows, limit, at) == []
    ensures forall offset: nat :: |ListQueue(rows, limit, offset)| <= limit
  {
    hide Queue;
  }

  predicate SkippedBefore(rows: Table, now: Time) {
    forall id | id in rows && rows[id].lastSkippedAt.Some? :: rows[id].lastSkippedAt.value < now
  }

  function SkipRow(row: FieldReview, now: Time): FieldReview {
    row.(skipCount := row.skipCount + 1, lastSkippedAt := Some(now))
  }

  /** The head of the queue is its least row and the tail ranks the others. */
  lemma QueueHead(rows: Table)
    requires Queue(rows) != []
    ensures var id, ids := Queue(rows)[0], RoutedIds(rows);
      && id in ids && id in rows && StrictTotal(QueueOrder(rows), ids - {id})
      && Queue(rows)[1..] == Ranking(QueueOrder(rows), ids - {id})
  {
    QueueOrderTotal(rows, RoutedIds(rows));
    NoElements(Queue(rows));
    RankingFirst(QueueOrder(rows), RoutedIds(rows));
  }

  /** A row that ranks after all the others goes to the back. */
  lemma QueueTail(rows: Table, id: Id)
    requires id in RoutedIds(rows)
    requires forall x | x in RoutedIds(rows) && x != id :: QueueOrder(rows)(x, id)
    ensures StrictTotal(QueueOrder(rows), RoutedIds(rows) - {id})
    ensures Queue(rows) == Ranking(QueueOrder(rows), RoutedIds(rows) - {id}) + [id]
  {
    QueueOrderTotal(rows, RoutedIds(rows));
    RankingLast(QueueOrder(rows), RoutedIds(rows), id);
  }

  lemma SkipComparisons(rows: Table, id: Id, now: Time)
    requires id in RoutedIds(rows) && SkippedBefore(rows, now)
    ensures var after := rows[id := SkipRow(rows[id], now)];
      && RoutedIds(after) == RoutedIds(rows)
      && (forall x | x in RoutedIds(rows) && x != id :: QueueOrder(after)(x, id))
      && (forall x, y | x in RoutedIds(rows) - {id} && y in RoutedIds(rows) - {id} ::
            QueueOrder(rows)(x, y) == QueueOrder(after)(x, y))
  {
  }

  /** Taking the next field and skipping it rotates the queue by one. */
  lemma SkipRotates(rows: Table, id: Id, now: Time)
    requires NextForReview(rows) == Some(id) && SkippedBefore(rows, now)
    ensures id in rows && Queue(rows[id := SkipRow(rows[id], now)]) == Queue(rows)[1..] + [id]
  {
    hide Queue, QueueOrder, RoutedIds;
    QueueHead(rows);
    SkipComparisons(rows, id, now);
    var after := rows[id := SkipRow(rows[id], now)];
    QueueTail(after, id);
    RankingAgrees(QueueOrder(rows), QueueOrder(after), RoutedIds(rows) - {id});
  }

  /** Skip the next field at each of the given times; returns the fields taken. */
  function SkipRound(rows: Table, times: seq<Time>): (Table, seq<Id>) {
    if times == [] then (rows, []) else
    match NextForReview(rows)
    case None => (rows, [])
    case Some(id) =>
      var (after, visited) := SkipRound(rows[id := SkipRow(rows[id], times[0])], times[1..]);
      (after, [id] + visited)
  }

  ghost predicate Increasing(times: seq<Time>) {
    forall i, j | 0 <= i < j < |times| :: times[i] < times[j]
  }

  lemma ShownIsFirst(rows: Table)
    ensures NextForReview(rows) == if Queue(rows) == [] then None else Some(Queue(rows)[0])
    ensures Queue(rows) != [] ==> Queue(rows)[0] in rows
  {
    hide Queue;
    assert Queue(rows) != [] ==> Queue(rows)[0] in Elements(Queue(rows));
  }

  /** k skips at increasing times show the first k fields of the queue and move them to its back. */
  lemma {:induction false} SkipsRotate(rows: Table, times: seq<Time>)
    requires Increasing(times) && |times| <= |Queue(rows)|
    requires times != [] ==> SkippedBefore(rows, times[0])
    ensures var (after, visited) := SkipRound(rows, times);
      visited == Queue(rows)[..|times|] && Queue(after) == Queue(rows)[|times|..] + Queue(rows)[..|times|]
    decreases |times|
  {
    hide Queue, NextForReview, RoutedIds;
    var q := Queue(rows);
    ShownIsFirst(rows);
    if times == [] {
      assert q[0..] + q[..0] == q;
    } else {
      var id := q[0];
      var next := rows[id := SkipRow(rows[id], times[0])];
      SkipRotates(rows, id, times[0]);
      SkipsRotate(next, times[1..]);
      var k := |times| - 1;
      assert (q[1..] + [id])[..k] == q[1..][..k];
      assert [id] + q[1..][..k] == q[..k + 1];
      assert (q[1..] + [id])[k..] + q[1..][..k] == q[k + 1..] + q[..k + 1];
    }
  }

  /** n skips over a queue of n fields visit every field exactly once and restore the order. */
  lemma SkipRoundIsFair(rows: Table, times: seq<Time>)
    requires Increasing(times) && |times| == |Queue(rows)|
    requires times != [] ==> SkippedBefore(rows, times[0])
    ensures var (after, visited) := SkipRound(rows, times);
      && Elements(visited) == RoutedIds(rows)
      && (forall i, j | 0 <= i < j < |visited| :: visited[i] != visited[j])
      && Queue(after) == Queue(rows)
  {
    hide Queue, SkipRound, RoutedIds, SkippedBefore;
    SkipsRotate(rows, times);
    QueueDistinct(rows);
    var q := Queue(rows);
    assert q[..|q|] == q && q[|q|..] + q == q;
  }

  lemma QueueDistinct(rows: Table)
    ensures forall i, j | 0 <= i < j < |Queue(rows)| :: Queue(rows)[i] != Queue(rows)[j]
  {
    var q, before := Queue(rows), QueueOrder(rows);
    QueueOrderTotal(rows, RoutedIds(rows));
    hide Ranking, Queue, QueueOrder;
    forall i, j | 0 <= i < j < |q| ensures q[i] != q[j] {
      assert q[i] in Elements(q) && before(q[i], q[j]) && !before(q[i], q[i]);
    }
  }

  /** Over fields nobody has skipped the queue is the routing rank. */
  lemma FreshQueueIsRanked(rows: Table)
    requires forall id | id in RoutedIds(rows) :: rows[id].lastSkippedAt.None?
    ensures StrictTotal(RankOrder(rows), RoutedIds(rows))
    ensures Queue(rows) == Ranking(RankOrder(rows), RoutedIds(rows))
  {
    QueueOrderTotal(rows, RoutedIds(rows));
    RankingAgrees(QueueOrder(rows), RankOrder(rows), RoutedIds(rows));
  }
}

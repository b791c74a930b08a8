/** Document identity: a fetch is stored under the hash of its bytes and identified
    by the hash of its text.  Detection and parsing are parameters; the two hashes
    are taken as injective. */
module Documents {
  import opened Common

  type Bytes = seq<bv8>

  datatype ContentHash = ContentHash(of: Bytes)

  datatype TextHash = TextHash(of: string)

  datatype Format = Markdown | Html | Pdf

  datatype Parsed = Parsed(title: Option<string>, text: string)

  /** Why a fetch, a detection or a parse failed. */
  datatype IngestError = TransientIngest | PermanentIngest | UnexpectedIngest

  /** Why an ingest returned no document. */
  datatype Refusal = Failed(error: IngestError) | DatabaseRefused

  datatype Fetched = Fetched(raw: Bytes, url: string, contentType: Option<string>)

  datatype Env = Env(
    detect: Fetched -> Result<Format, IngestError>,
    parse: (Bytes, Format) -> Result<Parsed, IngestError>
  )

  datatype Document = Document(
    source: Id,
    url: string,
    contentHash: ContentHash,
    textHash: TextHash,
    format: Format,
    fetchedAt: Time,
    raw: Bytes,
    text: string,
    title: Option<string>,
    createdAt: Time
  )

  type Table = map<Id, Document>

  // ----------------------------------------------------------------- invariants

  ghost predicate UniqueContent(docs: Table) {
    forall i, j | i in docs && j in docs && docs[i].contentHash == docs[j].contentHash :: i == j
  }

  ghost predicate UniqueText(docs: Table) {
    forall i, j | i in docs && j in docs && docs[i].textHash == docs[j].textHash :: i == j
  }

  /** The hash columns match what they hash, and some format reads the stored bytes
      as the stored text. */
  ghost predicate RowOk(d: Document, env: Env) {
    && d.contentHash == ContentHash(d.raw)
    && d.textHash == TextHash(d.text)
    && exists f :: Reads(env, d.raw, f, d.text)
  }

  predicate Reads(env: Env, raw: Bytes, f: Format, text: string) {
    env.parse(raw, f).Ok? && env.parse(raw, f).value.text == text
  }

  ghost predicate TableOk(docs: Table, env: Env) {
    && UniqueContent(docs) && UniqueText(docs)
    && forall id | id in docs :: RowOk(docs[id], env)
  }

  /** The columns that describe the document rather than the stored bytes. */
  predicate SameDocument(a: Document, b: Document) {
    && a.source == b.source && a.text == b.text && a.textHash == b.textHash
    && a.title == b.title && a.format == b.format && a.createdAt == b.createdAt
  }

  // --------------------------------------------------------------------- ingest

  ghost function WithBytes(docs: Table, raw: Bytes): Option<Id> {
    if exists id :: id in docs && docs[id].contentHash == ContentHash(raw) then
      var id :| id in docs && docs[id].contentHash == ContentHash(raw);
      Some(id)
    else None
  }

  ghost function WithText(docs: Table, text: string): Option<Id> {
    if exists id :: id in docs && docs[id].textHash == TextHash(text) then
      var id :| id in docs && docs[id].textHash == TextHash(text);
      Some(id)
    else None
  }

  /** Detection, then parsing. */
  function Read(f: Fetched, env: Env): Result<(Format, Parsed), IngestError> {
    match env.detect(f)
    case Err(e) => Err(e)
    case Ok(format) =>
      match env.parse(f.raw, format)
      case Err(e) => Err(e)
      case Ok(parsed) => Ok((format, parsed))
  }

  /** The one write an ingest makes. */
  datatype Write =
    | Keep(id: Id)
    | Move(id: Id, url: string, raw: Bytes, at: Time)
    | Insert(id: Id, row: Document)

  function NewDocument(f: Fetched, format: Format, parsed: Parsed, source: Id, now: Time): Document {
    Document(source, f.url, ContentHash(f.raw), TextHash(parsed.text), format, now, f.raw, parsed.text,
             parsed.title, now)
  }

  /** Identification by text: what the bytes-check is a shortcut for. */
  ghost function PlanByText(docs: Table, f: Fetched, env: Env, source: Id, newId: Id, now: Time)
    : Result<Write, IngestError>
  {
    match Read(f, env)
    case Err(e) => Err(e)
    case Ok((format, parsed)) =>
      match WithText(docs, parsed.text)
      case Some(id) => Ok(Move(id, f.url, f.raw, now))
      case None => Ok(Insert(newId, NewDocument(f, format, parsed, source, now)))
  }

  ghost function Plan(docs: Table, f: Fetched, env: Env, source: Id, newId: Id, now: Time)
    : Result<Write, IngestError>
  {
    match WithBytes(docs, f.raw)
    case Some(id) => Ok(Keep(id))
    case None => PlanByText(docs, f, env, source, newId, now)
  }

  function Perform(docs: Table, w: Write): Table {
    match w
    case Keep(_) => docs
    case Move(id, url, raw, at) =>
      if id in docs then
        docs[id := docs[id].(url := url, fetchedAt := at, contentHash := ContentHash(raw), raw := raw)]
      else docs
    case Insert(id, row) => docs[id := row]
  }

  /** The database accepts a write when the primary key is free and both hashes stay unique. */
  ghost predicate Accepts(docs: Table, w: Write) {
    && (w.Insert? ==> w.id !in docs)
    && UniqueContent(Perform(docs, w)) && UniqueText(Perform(docs, w))
  }

  ghost predicate Evolves(docs: Table, after: Table) {
    forall id | id in docs :: id in after && SameDocument(docs[id], after[id])
  }

  /** What makes a planned write sound, independently of when it is performed. */
  ghost predicate Sound(docs: Table, w: Write, env: Env) {
    match w
    case Keep(id) => id in docs
    case Move(id, _, raw, _) => id in docs && exists f :: Reads(env, raw, f, docs[id].text)
    case Insert(_, row) => RowOk(row, env)
  }

  lemma PlanByTextIsSound(docs: Table, f: Fetched, env: Env, source: Id, newId: Id, now: Time)
    requires TableOk(docs, env)
    ensures var plan := PlanByText(docs, f, env, source, newId, now);
      plan.Ok? ==> Sound(docs, plan.value, env)
  {
    match Read(f, env)
    case Err(_) =>
    case Ok((format, parsed)) =>
      assert Reads(env, f.raw, format, parsed.text);
      var found := WithText(docs, parsed.text);
      if found.Some? {
        assert RowOk(docs[found.value], env);
      }
  }

  lemma PlanIsSound(docs: Table, f: Fetched, env: Env, source: Id, newId: Id, now: Time)
    requires TableOk(docs, env)
    ensures var plan := Plan(docs, f, env, source, newId, now);
      plan.Ok? ==> Sound(docs, plan.value, env)
  {
    PlanByTextIsSound(docs, f, env, source, newId, now);
  }

  lemma PerformKeepsTable(docs: Table, w: Write, env: Env)
    requires TableOk(docs, env) && Sound(docs, w, env) && Accepts(docs, w)
    ensures TableOk(Perform(docs, w), env) && Evolves(docs, Perform(docs, w))
  {
    var after := Perform(docs, w);
    forall id | id in after
      ensures RowOk(after[id], env)
    {
      if id in docs {
        assert RowOk(docs[id], env);
      }
    }
  }

  /** A sound write stays sound while other transactions evolve the table. */
  lemma SoundIsStable(docs: Table, after: Table, w: Write, env: Env)
    requires Sound(docs, w, env) && Evolves(docs, after)
    ensures Sound(after, w, env)
  {
  }

  /** Against one table the plan is refused only if the new primary key is taken. */
  lemma PlanIsAccepted(docs: Table, f: Fetched, env: Env, source: Id, newId: Id, now: Time)
    requires TableOk(docs, env) && Plan(docs, f, env, source, newId, now).Ok?
    ensures var w := Plan(docs, f, env, source, newId, now).value;
      Accepts(docs, w) <==> !(w.Insert? && newId in docs)
  {
    var w := Plan(docs, f, env, source, newId, now).value;
    forall id | id in docs ensures RowOk(docs[id], env) {}
    if w.Insert? && newId !in docs {
      var parsed := Read(f, env).value.1;
      assert WithText(docs, parsed.text).None?;
    }
  }

  /** A fetch as a row records it: where it came from, when, and its bytes. */
  predicate Records(row: Document, f: Fetched, now: Time) {
    row.url == f.url && row.fetchedAt == now && row.raw == f.raw && row.contentHash == ContentHash(f.raw)
  }

  /** An inserted row has the format that detection gives and the title and text that parsing
      in that format gives. */
  predicate HoldsReading(row: Document, f: Fetched, env: Env) {
    && env.detect(f) == Ok(row.format)
    && env.parse(f.raw, row.format) == Ok(Parsed(row.title, row.text))
    && row.textHash == TextHash(row.text)
  }

  /** What ingesting a fetch does to the table and which document it answers with. */
  ghost predicate IngestOutcome(docs: Table, after: Table, id: Id, f: Fetched, env: Env, source: Id, newId: Id,
                                now: Time) {
    && id in after
    && (id in docs ==> SameDocument(docs[id], after[id]))
    && (forall other | other != id :: other in after <==> other in docs)
    && (forall other | other in docs && other != id :: after[other] == docs[other])
    && if exists i :: i in docs && docs[i].raw == f.raw then after == docs && docs[id].raw == f.raw
       else
         && Records(after[id], f, now)
         && env.detect(f).Ok? && Reads(env, f.raw, env.detect(f).value, after[id].text)
         && (id in docs <==> exists i :: i in docs && docs[i].text == after[id].text)
         && (id !in docs ==>
               && id == newId && HoldsReading(after[id], f, env)
               && after[id].source == source && after[id].createdAt == now)
  }

  /** The planned write, once accepted, has that outcome. */
  lemma PlanHasOutcome(docs: Table, f: Fetched, env: Env, source: Id, newId: Id, now: Time)
    requires TableOk(docs, env)
    ensures var plan := Plan(docs, f, env, source, newId, now);
      plan.Ok? && Accepts(docs, plan.value) ==>
        IngestOutcome(docs, Perform(docs, plan.value), plan.value.id, f, env, source, newId, now)
  {
    var plan := Plan(docs, f, env, source, newId, now);
    forall id | id in docs
      ensures docs[id].contentHash == ContentHash(docs[id].raw) && docs[id].textHash == TextHash(docs[id].text)
    {
      assert RowOk(docs[id], env);
    }
    if plan.Ok? && plan.value.Insert? {
      assert forall i | i in docs :: docs[i].textHash != TextHash(plan.value.row.text);
    }
  }

  /** Bytes that are stored: nothing to write. */
  lemma PlanOfStoredBytes(docs: Table, id: Id, f: Fetched, env: Env, source: Id, newId: Id, now: Time)
    requires TableOk(docs, env) && id in docs && docs[id].contentHash == ContentHash(f.raw)
    ensures Plan(docs, f, env, source, newId, now) == Ok(Keep(id))
    ensures Accepts(docs, Keep(id)) && Perform(docs, Keep(id)) == docs
  {
    assert WithBytes(docs, f.raw) == Some(id);
    hide Reads;
  }

  /** New bytes that cannot be read. */
  lemma PlanOfUnread(docs: Table, f: Fetched, env: Env, source: Id, newId: Id, now: Time)
    requires forall id | id in docs :: docs[id].contentHash != ContentHash(f.raw)
    ensures Read(f, env).Err? ==> Plan(docs, f, env, source, newId, now) == Err(Read(f, env).error)
  {
  }

  /** New bytes of a text that is stored: its row is moved. */
  lemma PlanOfStoredText(docs: Table, id: Id, f: Fetched, env: Env, source: Id, newId: Id, now: Time)
    requires TableOk(docs, env) && Read(f, env).Ok?
    requires forall id | id in docs :: docs[id].contentHash != ContentHash(f.raw)
    requires id in docs && docs[id].textHash == TextHash(Read(f, env).value.1.text)
    ensures var w := Move(id, f.url, f.raw, now);
      Plan(docs, f, env, source, newId, now) == Ok(w) && Accepts(docs, w)
    ensures Perform(docs, Move(id, f.url, f.raw, now))
            == docs[id := docs[id].(url := f.url, fetchedAt := now, contentHash := ContentHash(f.raw), raw := f.raw)]
  {
    PlanIsAccepted(docs, f, env, source, newId, now);
    assert WithText(docs, Read(f, env).value.1.text) == Some(id);
    hide Accepts, Read, Reads, RowOk;
  }

  /** New bytes of a new text: a row is inserted if its key is free. */
  lemma PlanOfNewText(docs: Table, f: Fetched, env: Env, source: Id, newId: Id, now: Time)
    requires TableOk(docs, env) && Read(f, env).Ok?
    requires forall id | id in docs :: docs[id].contentHash != ContentHash(f.raw)
    requires forall id | id in docs :: docs[id].textHash != TextHash(Read(f, env).value.1.text)
    ensures var (format, parsed) := Read(f, env).value;
      var w := Insert(newId, NewDocument(f, format, parsed, source, now));
      Plan(docs, f, env, source, newId, now) == Ok(w) && (Accepts(docs, w) <==> newId !in docs)
      && Perform(docs, w)
         == docs[newId := Document(source, f.url, ContentHash(f.raw), TextHash(parsed.text), format, now, f.raw,
                                   parsed.text, parsed.title, now)]
  {
    PlanIsAccepted(docs, f, env, source, newId, now);
    hide Accepts, Read, Reads, RowOk;
  }

  // ------------------------------------------------- histories, and what the shortcut refines

  datatype Visit = Visit(fetch: Result<Fetched, IngestError>, source: Id, newId: Id, at: Time)

  ghost function Ingest(docs: Table, v: Visit, env: Env, shortcut: bool): (Table, Result<Id, Refusal>) {
    match v.fetch
    case Err(e) => (docs, Err(Failed(e)))
    case Ok(f) =>
      var plan := if shortcut then Plan(docs, f, env, v.source, v.newId, v.at)
                  else PlanByText(docs, f, env, v.source, v.newId, v.at);
      match plan
      case Err(e) => (docs, Err(Failed(e)))
      case Ok(w) => if Accepts(docs, w) then (Perform(docs, w), Ok(w.id)) else (docs, Err(DatabaseRefused))
  }

  ghost function History(docs: Table, visits: seq<Visit>, env: Env, shortcut: bool)
    : (r: (Table, seq<Result<Id, Refusal>>))
    ensures |r.1| == |visits|
    decreases |visits|
  {
    if visits == [] then (docs, []) else
      var (next, result) := Ingest(docs, visits[0], env, shortcut);
      var (end, results) := History(next, visits[1..], env, shortcut);
      (end, [result] + results)
  }

  type Oracle = Bytes -> Result<string, IngestError>

  /** The text (or the failure) of every fetch in the history depends on its bytes alone. */
  ghost predicate BytesDetermineText(visits: seq<Visit>, env: Env, oracle: Oracle) {
    forall i | 0 <= i < |visits| && visits[i].fetch.Ok? ::
      ReadText(visits[i].fetch.value, env) == oracle(visits[i].fetch.value.raw)
  }

  function ReadText(f: Fetched, env: Env): Result<string, IngestError> {
    match Read(f, env)
    case Err(e) => Err(e)
    case Ok((_, parsed)) => Ok(parsed.text)
  }

  /** Equal up to the address and time of the last fetch. */
  ghost predicate Alike(a: Table, b: Table) {
    && a.Keys == b.Keys
    && forall id | id in a :: SameDocument(a[id], b[id]) && a[id].raw == b[id].raw
                              && a[id].contentHash == b[id].contentHash
  }

  ghost predicate Agrees(docs: Table, oracle: Oracle) {
    forall id | id in docs :: oracle(docs[id].raw) == Ok(docs[id].text)
                              && docs[id].contentHash == ContentHash(docs[id].raw)
                              && docs[id].textHash == TextHash(docs[id].text)
  }

  ghost predicate Good(docs: Table, oracle: Oracle) {
    UniqueContent(docs) && UniqueText(docs) && Agrees(docs, oracle)
  }

  lemma AlikeLookups(a: Table, b: Table, raw: Bytes, text: string)
    requires Alike(a, b) && UniqueText(a) && UniqueContent(a)
    ensures WithBytes(a, raw) == WithBytes(b, raw) && WithText(a, text) == WithText(b, text)
  {
  }

  /** In one table, bytes already stored lead identification by text to the same row. */
  lemma ShortcutFindsTheDocument(docs: Table, raw: Bytes, text: string, oracle: Oracle)
    requires Good(docs, oracle) && oracle(raw) == Ok(text) && WithBytes(docs, raw).Some?
    ensures WithText(docs, text) == WithBytes(docs, raw)
    ensures docs[WithBytes(docs, raw).value].raw == raw
  {
  }

  lemma AlikeUnique(a: Table, b: Table)
    requires Alike(a, b)
    ensures UniqueContent(a) == UniqueContent(b) && UniqueText(a) == UniqueText(b)
  {
  }

  lemma SameWriteAlike(a: Table, b: Table, w: Write)
    requires Alike(a, b)
    ensures Alike(Perform(a, w), Perform(b, w)) && Accepts(a, w) == Accepts(b, w)
  {
    assert Alike(Perform(a, w), Perform(b, w));
    AlikeUnique(Perform(a, w), Perform(b, w));
  }

  /** Moving a document to the bytes it already has changes nothing but address and time. */
  lemma MoveToOwnBytes(docs: Table, id: Id, url: string, at: Time)
    requires id in docs && docs[id].contentHash == ContentHash(docs[id].raw)
    requires UniqueContent(docs) && UniqueText(docs)
    ensures var w := Move(id, url, docs[id].raw, at);
      Alike(docs, Perform(docs, w)) && Accepts(docs, w)
  {
    var w := Move(id, url, docs[id].raw, at);
    assert Alike(docs, Perform(docs, w));
    AlikeUnique(docs, Perform(docs, w));
  }

  lemma AlikeTransitive(a: Table, b: Table, c: Table)
    requires Alike(a, b) && Alike(b, c)
    ensures Alike(a, c)
  {
  }

  lemma PlannedStaysGood(docs: Table, f: Fetched, env: Env, source: Id, newId: Id, now: Time, oracle: Oracle)
    requires Good(docs, oracle) && ReadText(f, env) == oracle(f.raw)
    ensures var plan := PlanByText(docs, f, env, source, newId, now);
      plan.Ok? && Accepts(docs, plan.value) ==> Good(Perform(docs, plan.value), oracle)
  {
  }

  lemma VisitsAlike(fast: Table, slow: Table, v: Visit, env: Env, oracle: Oracle)
    requires Alike(fast, slow) && Good(fast, oracle)
    requires v.fetch.Ok? ==> ReadText(v.fetch.value, env) == oracle(v.fetch.value.raw)
    ensures var a, b := Ingest(fast, v, env, true), Ingest(slow, v, env, false);
      a.1 == b.1 && Alike(a.0, b.0) && Good(a.0, oracle)
  {
    if v.fetch.Ok? {
      var f := v.fetch.value;
      var read := Read(f, env);
      if read.Ok? {
        var text := read.value.1.text;
        var stored := WithBytes(fast, f.raw);
        AlikeLookups(fast, slow, f.raw, text);
        if stored.Some? {
          VisitStoredBytes(fast, slow, v, text, env, oracle);
        } else {
          VisitNewBytes(fast, slow, v, text, env, oracle);
        }
      } else {
        assert WithBytes(fast, f.raw).None?;
      }
    }
  }

  lemma VisitStoredBytes(fast: Table, slow: Table, v: Visit, text: string, env: Env, oracle: Oracle)
    requires Alike(fast, slow) && Good(fast, oracle) && v.fetch.Ok?
    requires ReadText(v.fetch.value, env) == oracle(v.fetch.value.raw) == Ok(text)
    requires WithBytes(fast, v.fetch.value.raw).Some?
    ensures var a, b := Ingest(fast, v, env, true), Ingest(slow, v, env, false);
      a.1 == b.1 && Alike(a.0, b.0) && a.0 == fast
  {
    var f := v.fetch.value;
    AlikeLookups(fast, slow, f.raw, text);
    ShortcutFindsTheDocument(fast, f.raw, text, oracle);
    AlikeUnique(fast, slow);
    var id := WithBytes(fast, f.raw).value;
    MoveToOwnBytes(slow, id, f.url, v.at);
    AlikeTransitive(fast, slow, Perform(slow, Move(id, f.url, f.raw, v.at)));
  }

  lemma VisitNewBytes(fast: Table, slow: Table, v: Visit, text: string, env: Env, oracle: Oracle)
    requires Alike(fast, slow) && Good(fast, oracle) && v.fetch.Ok?
    requires ReadText(v.fetch.value, env) == oracle(v.fetch.value.raw) == Ok(text)
    requires WithBytes(fast, v.fetch.value.raw).None?
    ensures var a, b := Ingest(fast, v, env, true), Ingest(slow, v, env, false);
      a.1 == b.1 && Alike(a.0, b.0) && Good(a.0, oracle)
  {
    var f := v.fetch.value;
    AlikeLookups(fast, slow, f.raw, text);
    PlannedStaysGood(fast, f, env, v.source, v.newId, v.at, oracle);
    var plan := PlanByText(fast, f, env, v.source, v.newId, v.at);
    assert plan == PlanByText(slow, f, env, v.source, v.newId, v.at);
    SameWriteAlike(fast, slow, plan.value);
  }

  /** Over any fetch history the shortcut returns the same documents and errors, and
      keeps the same table up to `source_url` and `fetched_at`. */
  lemma {:induction false} ShortcutRefinesByText(fast: Table, slow: Table, visits: seq<Visit>, env: Env, oracle: Oracle)
    requires Alike(fast, slow) && Good(fast, oracle) && BytesDetermineText(visits, env, oracle)
    ensures var a, b := History(fast, visits, env, true), History(slow, visits, env, false);
      a.1 == b.1 && Alike(a.0, b.0) && Good(a.0, oracle)
    decreases |visits|
  {
    if visits != [] {
      VisitsAlike(fast, slow, visits[0], env, oracle);
      ShortcutRefinesByText(Ingest(fast, visits[0], env, true).0, Ingest(slow, visits[0], env, false).0,
                            visits[1..], env, oracle);
    }
  }

  ghost function Texts(docs: Table): set<string> {
    set id | id in docs :: docs[id].text
  }

  /** The texts of the fetches that ended in a document. */
  ghost function SeenTexts(visits: seq<Visit>, results: seq<Result<Id, Refusal>>, oracle: Oracle): set<string>
    requires |visits| == |results|
  {
    set i | 0 <= i < |visits| && visits[i].fetch.Ok? && results[i].Ok? && oracle(visits[i].fetch.value.raw).Ok? ::
      oracle(visits[i].fetch.value.raw).value
  }

  ghost function SeenText(v: Visit, result: Result<Id, Refusal>, oracle: Oracle): set<string> {
    if v.fetch.Ok? && result.Ok? && oracle(v.fetch.value.raw).Ok? then {oracle(v.fetch.value.raw).value} else {}
  }

  lemma PlannedTexts(docs: Table, w: Write, text: string)
    requires UniqueText(docs)
    requires w.Insert? ==> w.row.text == text && w.id !in docs
    requires !w.Insert? ==> w.id in docs && docs[w.id].text == text
    ensures Evolves(docs, Perform(docs, w)) && Texts(Perform(docs, w)) == Texts(docs) + {text}
    ensures w.id in Perform(docs, w) && Perform(docs, w)[w.id].text == text
  {
    var after := Perform(docs, w);
    assert forall id | id in docs :: id in after && after[id].text == docs[id].text;
    forall t | t in Texts(docs) + {text}
      ensures t in Texts(after)
    {
      if t in Texts(docs) {
        var id :| id in docs && docs[id].text == t;
        assert after[id].text == t;
      } else {
        assert after[w.id].text == t;
      }
    }
    forall t | t in Texts(after)
      ensures t in Texts(docs) + {text}
    {
      var id :| id in after && after[id].text == t;
      assert id in docs || id == w.id;
    }
  }

  lemma VisitTexts(docs: Table, v: Visit, env: Env, oracle: Oracle)
    requires Good(docs, oracle)
    requires v.fetch.Ok? ==> ReadText(v.fetch.value, env) == oracle(v.fetch.value.raw)
    ensures var (after, result) := Ingest(docs, v, env, true);
      && Evolves(docs, after)
      && Texts(after) == Texts(docs) + SeenText(v, result, oracle)
      && (result.Ok? ==> v.fetch.Ok? && result.value in after
                         && oracle(v.fetch.value.raw) == Ok(after[result.value].text))
  {
    var (after, result) := Ingest(docs, v, env, true);
    if result.Ok? {
      hide Perform, Texts, Accepts;
      var f := v.fetch.value;
      var w := Plan(docs, f, env, v.source, v.newId, v.at).value;
      if WithBytes(docs, f.raw).None? {
        var text := Read(f, env).value.1.text;
        PlannedTexts(docs, w, text);
      } else {
        PlannedTexts(docs, w, docs[w.id].text);
      }
    }
  }

  lemma {:induction false} HistoryTexts(docs: Table, visits: seq<Visit>, env: Env, oracle: Oracle)
    requires Good(docs, oracle) && BytesDetermineText(visits, env, oracle)
    ensures var (after, results) := History(docs, visits, env, true);
      Texts(after) == Texts(docs) + SeenTexts(visits, results, oracle) && Evolves(docs, after)
    decreases |visits|
  {
    hide Texts, Good, Ingest;
    if visits == [] {
      assert SeenTexts(visits, [], oracle) == {};
    } else {
      var v, rest := visits[0], visits[1..];
      VisitTexts(docs, v, env, oracle);
      VisitsAlike(docs, docs, v, env, oracle);
      HistoryTexts(Ingest(docs, v, env, true).0, rest, env, oracle);
      var results := History(docs, visits, env, true).1;
      SeenTextsCons(visits, results, oracle);
      assert results[1..] == History(Ingest(docs, v, env, true).0, rest, env, true).1;
    }
  }

  /** Every successful fetch in a history returns the document that still has its text at the end. */
  lemma {:induction false} VisitLandsOnText(docs: Table, visits: seq<Visit>, env: Env, oracle: Oracle, k: nat)
    requires Good(docs, oracle) && BytesDetermineText(visits, env, oracle) && k < |visits|
    requires History(docs, visits, env, true).1[k].Ok?
    ensures var (after, results) := History(docs, visits, env, true);
      && visits[k].fetch.Ok? && results[k].value in after
      && oracle(visits[k].fetch.value.raw) == Ok(after[results[k].value].text)
    decreases |visits|
  {
    hide Texts, Good, Ingest;
    var next := Ingest(docs, visits[0], env, true).0;
    VisitTexts(docs, visits[0], env, oracle);
    VisitsAlike(docs, docs, visits[0], env, oracle);
    if k == 0 {
      HistoryTexts(next, visits[1..], env, oracle);
    } else {
      VisitLandsOnText(next, visits[1..], env, oracle, k - 1);
    }
  }

  /** Documents are in bijection with the distinct texts seen, and a document's own
      columns never change after its insert. */
  lemma DocumentsAreTexts(visits: seq<Visit>, env: Env, oracle: Oracle)
    requires BytesDetermineText(visits, env, oracle)
    ensures var (after, results) := History(map[], visits, env, true);
      && Texts(after) == SeenTexts(visits, results, oracle)
      && (forall i, j | i in after && j in after && after[i].text == after[j].text :: i == j)
  {
    HistoryTexts(map[], visits, env, oracle);
    ShortcutRefinesByText(map[], map[], visits, env, oracle);
    var after := History(map[], visits, env, true).0;
    assert Texts(map[]) == {};
    forall i, j | i in after && j in after && after[i].text == after[j].text ensures i == j {
      assert after[i].textHash == after[j].textHash;
    }
  }

  lemma SeenTextsCons(visits: seq<Visit>, results: seq<Result<Id, Refusal>>, oracle: Oracle)
    requires |visits| == |results| > 0
    ensures SeenTexts(visits, results, oracle)
            == SeenText(visits[0], results[0], oracle) + SeenTexts(visits[1..], results[1..], oracle)
  {
    var all, tail := SeenTexts(visits, results, oracle), SeenTexts(visits[1..], results[1..], oracle);
    forall t | t in all
      ensures t in tail || (visits[0].fetch.Ok? && results[0].Ok? && oracle(visits[0].fetch.value.raw) == Ok(t))
    {
      var i :| 0 <= i < |visits| && visits[i].fetch.Ok? && results[i].Ok? && oracle(visits[i].fetch.value.raw) == Ok(t);
      if i > 0 {
        assert visits[1..][i - 1] == visits[i] && results[1..][i - 1] == results[i];
      }
    }
    forall t | t in tail
      ensures t in all
    {
      var i :| 0 <= i < |visits| - 1 && visits[1..][i].fetch.Ok? && results[1..][i].Ok?
               && oracle(visits[1..][i].fetch.value.raw) == Ok(t);
      assert visits[1..][i] == visits[i + 1] && results[1..][i] == results[i + 1];
    }
  }

  // ---------------------------------------------------------------- what does not hold

  /** At most one format reads the bytes as any one text. */
  ghost predicate OneReader(env: Env, raw: Bytes) {
    forall g, h, t | Reads(env, raw, g, t) && Reads(env, raw, h, t) :: g == h
  }

  /** The format column of a moved document reads the new bytes when the fetch is detected as
      that format, and only then if no other format reads them alike. */
  lemma MovedFormatReads(docs: Table, f: Fetched, env: Env, source: Id, newId: Id, now: Time)
    requires TableOk(docs, env)
    requires var plan := Plan(docs, f, env, source, newId, now); plan.Ok? && plan.value.Move?
    ensures var w := Plan(docs, f, env, source, newId, now).value;
      var row := Perform(docs, w)[w.id];
      && w.id in docs && row.raw == f.raw && row.format == docs[w.id].format && row.text == docs[w.id].text
      && (env.detect(f) == Ok(row.format) ==> Reads(env, row.raw, row.format, row.text))
      && (OneReader(env, f.raw) && Reads(env, row.raw, row.format, row.text) ==> env.detect(f) == Ok(row.format))
  {
    var w := Plan(docs, f, env, source, newId, now).value;
    var (format, parsed) := Read(f, env).value;
    assert RowOk(docs[w.id], env);
    assert Reads(env, f.raw, format, parsed.text) && docs[w.id].text == parsed.text;
  }

  /** Every document is read from its bytes by its own format column. */
  ghost predicate FormatsRead(docs: Table, env: Env) {
    forall id | id in docs :: Reads(env, docs[id].raw, docs[id].format, docs[id].text)
  }

  /** A fetch that moves a document to new bytes is detected as that document's format. */
  ghost predicate KeepsFormat(docs: Table, v: Visit, env: Env) {
    var result := Ingest(docs, v, env, true).1;
    v.fetch.Ok? && result.Ok? && result.value in docs && WithBytes(docs, v.fetch.value.raw).None? ==>
      env.detect(v.fetch.value) == Ok(docs[result.value].format)
  }

  lemma IngestKeepsTable(docs: Table, v: Visit, env: Env)
    requires TableOk(docs, env)
    ensures TableOk(Ingest(docs, v, env, true).0, env)
  {
    if v.fetch.Ok? {
      PlanIsSound(docs, v.fetch.value, env, v.source, v.newId, v.at);
      var plan := Plan(docs, v.fetch.value, env, v.source, v.newId, v.at);
      hide Plan, Sound, TableOk;
      if plan.Ok? && Accepts(docs, plan.value) {
        PerformKeepsTable(docs, plan.value, env);
      }
    }
  }

  /** One visit keeps every format column true exactly when it keeps the format of what it moves. */
  lemma VisitKeepsFormats(docs: Table, v: Visit, env: Env)
    requires TableOk(docs, env) && FormatsRead(docs, env)
    requires v.fetch.Ok? ==> OneReader(env, v.fetch.value.raw)
    ensures FormatsRead(Ingest(docs, v, env, true).0, env) <==> KeepsFormat(docs, v, env)
  {
    if v.fetch.Ok? && Ingest(docs, v, env, true).1.Ok? {
      var f := v.fetch.value;
      var w := Plan(docs, f, env, v.source, v.newId, v.at).value;
      match w
      case Keep(_) =>
      case Move(id, _, _, _) =>
        MovedFormatReads(docs, f, env, v.source, v.newId, v.at);
        hide OneReader, TableOk;
        assert Perform(docs, w) == docs[id := Perform(docs, w)[id]];
      case Insert(id, row) => assert Reads(env, row.raw, row.format, row.text);
    }
  }

  /** The format columns are true after every visit of a history. */
  ghost predicate FormatsAlwaysRead(docs: Table, visits: seq<Visit>, env: Env)
    decreases |visits|
  {
    FormatsRead(docs, env)
    && (visits != [] ==> FormatsAlwaysRead(Ingest(docs, visits[0], env, true).0, visits[1..], env))
  }

  /** Every fetch of a history that moves a document is detected as that document's format. */
  ghost predicate FormatsKept(docs: Table, visits: seq<Visit>, env: Env)
    decreases |visits|
  {
    visits != [] ==>
      KeepsFormat(docs, visits[0], env) && FormatsKept(Ingest(docs, visits[0], env, true).0, visits[1..], env)
  }

  /** Over a fetch history `format` describes the stored bytes throughout exactly when every
      fetch that moves a document is detected as the format the document already has. */
  lemma {:induction false} FormatDescribesBytesExactlyWhenKept(docs: Table, visits: seq<Visit>, env: Env)
    requires TableOk(docs, env) && FormatsRead(docs, env)
    requires forall i | 0 <= i < |visits| && visits[i].fetch.Ok? :: OneReader(env, visits[i].fetch.value.raw)
    ensures FormatsAlwaysRead(docs, visits, env) <==> FormatsKept(docs, visits, env)
    decreases |visits|
  {
    hide TableOk, FormatsRead, KeepsFormat, OneReader, Ingest;
    if visits != [] {
      var next := Ingest(docs, visits[0], env, true).0;
      IngestKeepsTable(docs, visits[0], env);
      VisitKeepsFormats(docs, visits[0], env);
      if FormatsRead(next, env) {
        FormatDescribesBytesExactlyWhenKept(next, visits[1..], env);
      }
    }
  }

  /** `format` stays that of the first fetch: a document moved to bytes of another format
      is no longer read from its bytes by its own format column. */
  lemma FormatMayDescribeOldBytes(env: Env, html: Bytes, pdf: Bytes)
    requires html != pdf
    requires env.detect(Fetched(html, "a", None)) == Ok(Html) && env.detect(Fetched(pdf, "b", None)) == Ok(Pdf)
    requires env.parse(html, Html) == Ok(Parsed(None, "t")) && env.parse(pdf, Pdf) == Ok(Parsed(None, "t"))
    requires env.parse(pdf, Html).Err?
    ensures var visits := [Visit(Ok(Fetched(html, "a", None)), 1, 1, 1), Visit(Ok(Fetched(pdf, "b", None)), 1, 2, 2)];
      var docs := History(map[], visits, env, true).0;
      1 in docs && docs[1].raw == pdf && docs[1].format == Html
          && !Reads(env, docs[1].raw, docs[1].format, docs[1].text)
  {
    var first, second := Visit(Ok(Fetched(html, "a", None)), 1, 1, 1), Visit(Ok(Fetched(pdf, "b", None)), 1, 2, 2);
    var row := NewDocument(Fetched(html, "a", None), Html, Parsed(None, "t"), 1, 1);
    var docs: Table := map[1 := row];
    assert WithText(map[], "t").None?;
    assert Ingest(map[], first, env, true).0 == docs;
    assert docs[1].textHash == TextHash("t");
    assert WithText(docs, "t") == Some(1) && WithBytes(docs, pdf).None?;
    assert Ingest(docs, second, env, true).0 == Perform(docs, Move(1, "b", pdf, 2));
    assert [first, second][1..] == [second] && [second][1..] == [];
    assert History(Perform(docs, Move(1, "b", pdf, 2)), [], env, true).0 == Perform(docs, Move(1, "b", pdf, 2));
    assert History(docs, [second], env, true).0 == Perform(docs, Move(1, "b", pdf, 2));
  }

  /** When one byte string reads as two texts, the second fetch separates the two forms:
      the shortcut answers with the first document, identification by text is refused
      by the unique index on `content_hash`. */
  lemma ShortcutDiffersWhenBytesDoNotDetermineText(docs: Table, id: Id, f: Fetched, env: Env, source: Id, newId: Id,
                                                   now: Time)
    requires TableOk(docs, env) && id in docs && docs[id].raw == f.raw && newId !in docs
    ensures var v := Visit(Ok(f), source, newId, now);
      var same := ReadText(f, env) == Ok(docs[id].text);
      && Ingest(docs, v, env, true) == (docs, Ok(id))
      && (Ingest(docs, v, env, false).1 == Ok(id) <==> same)
      && (ReadText(f, env).Ok? && !same ==> Ingest(docs, v, env, false) == (docs, Err(DatabaseRefused)))
  {
    assert RowOk(docs[id], env);
    assert WithBytes(docs, f.raw) == Some(id);
    if ReadText(f, env).Ok? {
      var text := ReadText(f, env).value;
      var w := PlanByText(docs, f, env, source, newId, now).value;
      var after := Perform(docs, w);
      if text == docs[id].text {
        assert docs[id].textHash == TextHash(text);
        assert WithText(docs, text) == Some(id);
        MoveToOwnBytes(docs, id, f.url, now);
      } else {
        forall i | i in docs && docs[i].textHash == TextHash(text) ensures i != id {}
        assert w.id != id && w.id in after && after[w.id].contentHash == after[id].contentHash;
      }
    }
  }
}

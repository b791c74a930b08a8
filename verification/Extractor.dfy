/** The validate-and-retry loop around the model call, and what the pipeline stores of it. */
module Extractor {
  import opened Common

  type Usage = map<string, int>

  datatype Attempt = Attempt(number: nat, rawOutput: string, ok: bool, validationError: Option<string>, usage: Usage,
                             model: string)

  datatype Message = User(content: string) | Assistant(content: string)

  datatype ErrorKind = Transient | Permanent

  /** What one model call does: answer, raise an extraction error, or raise something else. */
  datatype Reply =
    | Response(text: string, usage: Usage, model: string)
    | Refused(kind: ErrorKind, attempts: seq<Attempt>)
    | Crashed

  datatype Record = Record(title: string, titleSource: string, rest: Json)

  datatype Output = Output(record: Record, confidence: Json)

  /** What parsing and validating one output does. */
  datatype Verdict = Accepted(output: Output) | Rejected(error: string) | Raised

  /** A client may answer each call differently, and differently again on each conversation. */
  type Client = (nat, seq<Message>) -> Reply

  datatype Outcome =
    | Success(output: Output, attempts: seq<Attempt>, model: string)
    | Failure(kind: ErrorKind, attempts: seq<Attempt>)
    | Unexpected

  // ------------------------------------------------------------------------ code fences

  const FENCE := "```"

  predicate StartsWith(s: string, p: string) {
    |p| <= |s| && s[..|p|] == p
  }

  predicate EndsWith(s: string, p: string) {
    |p| <= |s| && s[|s| - |p|..] == p
  }

  function LineBreakFrom(s: string, i: nat): (j: nat)
    requires i <= |s|
    ensures i <= j <= |s| && (forall k | i <= k < j :: s[k] != '\n') && (j < |s| ==> s[j] == '\n')
    decreases |s| - i
  {
    if i < |s| && s[i] != '\n' then LineBreakFrom(s, i + 1) else i
  }

  /** The output without a Markdown code fence around it. */
  function StripCodeFence(raw: string): string {
    var text := Strip(raw);
    if StartsWith(text, FENCE) then
      var line := LineBreakFrom(text, 0);
      var body := if line < |text| then text[line + 1..] else text[3..];
      var end := TrimRight(body);
      Strip(if EndsWith(end, FENCE) then end[..|end| - 3] else body)
    else Strip(text)
  }

  lemma {:induction false} TrimRightAppended(s: string, c: char)
    ensures !IsSpace(c) ==> TrimRight(s + [c]) == s + [c]
    ensures IsSpace(c) ==> TrimRight(s + [c]) == TrimRight(s)
  {
    assert (s + [c])[..|s|] == s;
  }

  lemma ClosedBy(body: string, fence: string)
    requires fence != "" && !IsSpace(fence[0]) && !IsSpace(fence[|fence| - 1])
    ensures Trimmed(fence + (body + fence)) && StartsWith(fence + (body + fence), fence)
    ensures TrimRight(body + fence) == body + fence && EndsWith(body + fence, fence)
    ensures (body + fence)[..|body|] == body
  {
    var n := |fence| - 1;
    assert body + fence == (body + fence[..n]) + [fence[n]];
    TrimRightAppended(body + fence[..n], fence[n]);
  }

  lemma FirstLineEnds(head: string, line: string, rest: string)
    requires '\n' !in head && |line| == 1 && line[0] == '\n'
    ensures LineBreakFrom(head + (line + rest), 0) == |head| < |head + (line + rest)|
    ensures (head + (line + rest))[|head| + 1..] == rest
  {
    var raw := head + (line + rest);
    assert forall k | 0 <= k < |head| :: raw[k] == head[k];
    assert raw[|head|] == '\n';
  }

  lemma StripsFirstLine(raw: string, line: nat, body: string)
    requires Trimmed(raw) && StartsWith(raw, FENCE) && line < |raw| && LineBreakFrom(raw, 0) == line
    requires raw[line + 1..] == body + FENCE && TrimRight(body + FENCE) == body + FENCE
    requires EndsWith(body + FENCE, FENCE) && (body + FENCE)[..|body|] == body
    ensures StripCodeFence(raw) == Strip(body)
  {
    StripTrims(raw);
    hide TrimLeft, TrimRight, Strip, IsSpace, LineBreakFrom, StartsWith, EndsWith, Trimmed;
  }

  lemma Regroup(fence: string, tag: string, line: string, body: string)
    requires fence != "" && !IsSpace(fence[0]) && !IsSpace(fence[|fence| - 1])
    ensures var raw := (fence + tag) + (line + ((body + line) + fence));
      && raw == fence + tag + line + body + line + fence
      && Trimmed(raw) && StartsWith(raw, fence)
  {
  }

  lemma FencedIsTransparent(fence: string, tag: string, line: string, body: string)
    requires fence == FENCE && line == ['\n'] && Trimmed(body) && '\n' !in tag && '\n' !in fence
    requires fence != "" && !IsSpace(fence[0]) && !IsSpace(fence[|fence| - 1])
    ensures StripCodeFence(fence + tag + line + body + line + fence) == body
  {
    StripAppendedBreak(body);
    ClosedBy(body + line, fence);
    Regroup(fence, tag, line, body);
    FirstLineEnds(fence + tag, line, (body + line) + fence);
    hide TrimLeft, TrimRight, Strip, IsSpace, LineBreakFrom, StartsWith, EndsWith, Trimmed, StripCodeFence;
    StripsFirstLine((fence + tag) + (line + ((body + line) + fence)), |fence + tag|, body + line);
  }

  /** A fenced object, whatever the tag after the fence, reads as the object itself. */
  lemma FenceIsTransparent(tag: string, body: string)
    requires Trimmed(body) && '\n' !in tag
    ensures StripCodeFence(FENCE + tag + "\n" + body + "\n" + FENCE) == body
  {
    FencedIsTransparent(FENCE, tag, "\n", body);
  }

  lemma OneLine(body: string, fence: string)
    requires '\n' !in body && '\n' !in fence
    ensures LineBreakFrom(fence + (body + fence), 0) == |fence + (body + fence)|
  {
    var raw := fence + (body + fence);
    assert forall k | 0 <= k < |raw| :: raw[k] in fence || raw[k] in body;
  }

  lemma StripsOneLine(raw: string, body: string)
    requires raw == FENCE + (body + FENCE) && Trimmed(raw) && StartsWith(raw, FENCE)
    requires LineBreakFrom(raw, 0) == |raw|
    requires TrimRight(body + FENCE) == body + FENCE && EndsWith(body + FENCE, FENCE)
    requires (body + FENCE)[..|body|] == body
    ensures StripCodeFence(raw) == Strip(body)
  {
    StripTrims(raw);
    hide TrimLeft, TrimRight, Strip, IsSpace, LineBreakFrom, StartsWith, EndsWith, Trimmed;
    assert raw[3..] == body + FENCE;
  }

  /** So does an object fenced on one line. */
  lemma InlineFenceIsTransparent(body: string)
    requires Trimmed(body) && '\n' !in body
    ensures StripCodeFence(FENCE + body + FENCE) == body
  {
    StripTrims(body);
    ClosedBy(body, FENCE);
    OneLine(body, FENCE);
    hide TrimLeft, TrimRight, Strip, IsSpace, LineBreakFrom, StartsWith, EndsWith, Trimmed, StripCodeFence;
    StripsOneLine(FENCE + (body + FENCE), body);
    assert FENCE + body + FENCE == FENCE + (body + FENCE);
  }

  /** So does an object whose fence is never closed. */
  lemma OpenFenceIsTransparent(tag: string, body: string)
    requires Trimmed(body) && body != "" && '\n' !in tag && !EndsWith(body, FENCE)
    ensures StripCodeFence(FENCE + tag + "\n" + body) == body
  {
    StripTrims(body);
    var raw := FENCE + tag + "\n" + body;
    assert raw[0] == '`' && raw[|raw| - 1] == body[|body| - 1];
    StripTrims(raw);
    assert body[..|body| - 1] + [body[|body| - 1]] == body;
    TrimRightAppended(body[..|body| - 1], body[|body| - 1]);
    hide TrimLeft, TrimRight, Strip, IsSpace;
    assert forall k | 0 <= k < 3 + |tag| :: raw[k] == (FENCE + tag)[k];
    assert raw[3 + |tag|] == '\n' && LineBreakFrom(raw, 0) == 3 + |tag|;
    assert raw[4 + |tag|..] == body;
  }

  /** An object without a fence reads as itself. */
  lemma BareIsKept(body: string)
    requires Trimmed(body) && !StartsWith(body, FENCE)
    ensures StripCodeFence(body) == body
  {
    StripTrims(body);
  }

  lemma StripAppendedBreak(body: string)
    requires Trimmed(body)
    ensures Strip(body + ['\n']) == body
  {
    TrimRightAppended(body, '\n');
    if body == "" {
      assert TrimLeft("\n") == "";
    } else {
      assert TrimLeft(body + ['\n']) == body + ['\n'];
    }
  }

  // ------------------------------------------------------------------------- conversation

  /** How a conversation opens, and how it asks for a corrected object given the complaints. */
  datatype Talk = Talk(first: Message, retry: string -> string)

  /** What a call sees after the given attempts: the first message, then every earlier
      output with the complaint about it. */
  function Conversation(talk: Talk, attempts: seq<Attempt>): seq<Message> {
    if attempts == [] then [talk.first]
    else
      var last := attempts[|attempts| - 1];
      Conversation(talk, attempts[..|attempts| - 1])
      + [Assistant(last.rawOutput),
         User(talk.retry(if last.validationError.Some? then last.validationError.value else ""))]
  }

  /** The conversation alternates, and each attempt sits in it at its own place. */
  lemma {:induction false} ConversationAlternates(talk: Talk, attempts: seq<Attempt>)
    requires talk.first.User?
    ensures var c := Conversation(talk, attempts);
      && |c| == 2 * |attempts| + 1 && c[0] == talk.first
      && (forall i | 0 <= i < |c| :: c[i].User? <==> i % 2 == 0)
      && (forall j | 0 <= j < |attempts| :: c[2 * j + 1] == Assistant(attempts[j].rawOutput))
      && (forall j | 0 <= j < |attempts| && attempts[j].validationError.Some? ::
            c[2 * j + 2] == User(talk.retry(attempts[j].validationError.value)))
  {
    if attempts != [] {
      ConversationAlternates(talk, attempts[..|attempts| - 1]);
    }
  }

  // --------------------------------------------------------------------------- the loop

  /** What the loop records of reply number `j`. */
  function Recorded(j: nat, reply: Reply, verdict: Verdict): Attempt
    requires reply.Response? && !verdict.Raised?
  {
    Attempt(j + 1, reply.text, verdict.Accepted?,
            if verdict.Accepted? then None else Some(verdict.error), reply.usage, reply.model)
  }

  ghost predicate LoggedAt(client: Client, validate: string -> Verdict, talk: Talk, attempts: seq<Attempt>, j: nat)
    requires j < |attempts|
  {
    var reply := client(j, Conversation(talk, attempts[..j]));
    && reply.Response? && !validate(StripCodeFence(reply.text)).Raised?
    && attempts[j] == Recorded(j, reply, validate(StripCodeFence(reply.text)))
  }

  /** The log of a run of the loop: each attempt records the client's answer to the
      conversation that the attempts before it make. */
  ghost predicate Logged(client: Client, validate: string -> Verdict, talk: Talk, attempts: seq<Attempt>) {
    && (forall j | 0 <= j < |attempts| :: LoggedAt(client, validate, talk, attempts, j))
    && (forall j | 0 <= j < |attempts| - 1 :: !attempts[j].ok)
  }

  /** How the loop ends after the responses in `made`. */
  ghost predicate Ends(client: Client, validate: string -> Verdict, talk: Talk, max: nat, made: seq<Attempt>,
                       outcome: Outcome) {
    var open := made == [] || !made[|made| - 1].ok;
    var reply := client(|made|, Conversation(talk, made));
    match outcome
    case Success(output, attempts, model) =>
      && attempts == made && !open && model == made[|made| - 1].model
      && validate(StripCodeFence(made[|made| - 1].rawOutput)) == Accepted(output)
    case Failure(kind, attempts) =>
      && open
      && ((|made| == max && kind == Permanent && attempts == made)
          || (|made| < max && reply.Refused? && kind == reply.kind && attempts == made + reply.attempts))
    case Unexpected =>
      && open && |made| < max
      && (reply.Crashed? || (reply.Response? && validate(StripCodeFence(reply.text)).Raised?))
  }

  /** A whole run of the loop: the responses it received and how it ended. */
  ghost predicate RunOf(client: Client, validate: string -> Verdict, talk: Talk, max: nat, made: seq<Attempt>,
                        outcome: Outcome) {
    |made| <= max && Logged(client, validate, talk, made) && Ends(client, validate, talk, max, made, outcome)
  }

  method Extract(client: Client, validate: string -> Verdict, talk: Talk, max: nat) returns (outcome: Outcome)
    requires max >= 1
    ensures exists made: seq<Attempt> :: RunOf(client, validate, talk, max, made, outcome)
    ensures outcome.Success? ==>
      && 1 <= |outcome.attempts| <= max
      && forall j | 0 <= j < |outcome.attempts| ::
           outcome.attempts[j].number == j + 1 && (outcome.attempts[j].ok <==> j == |outcome.attempts| - 1)
  {
    hide StripCodeFence, Logged;
    var messages := [talk.first];
    var attempts: seq<Attempt> := [];
    NothingLogged(client, validate, talk);
    for number := 0 to max
      invariant |attempts| == number && forall j | 0 <= j < number :: attempts[j].number == j + 1
      invariant messages == Conversation(talk, attempts)
      invariant Logged(client, validate, talk, attempts)
      invariant forall j | 0 <= j < number :: !attempts[j].ok
    {
      hide Conversation;
      var reply := client(number, messages);
      if reply.Refused? {
        assert RunOf(client, validate, talk, max, attempts, Failure(reply.kind, attempts + reply.attempts));
        return Failure(reply.kind, attempts + reply.attempts);
      }
      if reply.Crashed? {
        assert RunOf(client, validate, talk, max, attempts, Unexpected);
        return Unexpected;
      }
      var verdict := validate(StripCodeFence(reply.text));
      if verdict.Raised? {
        assert RunOf(client, validate, talk, max, attempts, Unexpected);
        return Unexpected;
      }
      var attempt := Recorded(number, reply, verdict);
      LogOne(client, validate, talk, attempts);
      attempts := attempts + [attempt];
      if verdict.Accepted? {
        assert RunOf(client, validate, talk, max, attempts, Success(verdict.output, attempts, reply.model));
        return Success(verdict.output, attempts, reply.model);
      }
      messages := messages + [Assistant(reply.text), User(talk.retry(verdict.error))];
      ConversationNext(talk, attempts[..number], attempt);
      assert attempts == attempts[..number] + [attempt];
    }
    outcome := Failure(Permanent, attempts);
    assert RunOf(client, validate, talk, max, attempts, outcome);
  }

  lemma NothingLogged(client: Client, validate: string -> Verdict, talk: Talk)
    ensures Logged(client, validate, talk, [])
  {
  }

  lemma ConversationNext(talk: Talk, attempts: seq<Attempt>, last: Attempt)
    ensures Conversation(talk, attempts + [last])
            == Conversation(talk, attempts)
               + [Assistant(last.rawOutput),
                  User(talk.retry(if last.validationError.Some? then last.validationError.value else ""))]
  {
    assert (attempts + [last])[..|attempts|] == attempts;
  }

  lemma LogOne(client: Client, validate: string -> Verdict, talk: Talk, attempts: seq<Attempt>)
    requires Logged(client, validate, talk, attempts) && forall j | 0 <= j < |attempts| :: !attempts[j].ok
    requires var reply := client(|attempts|, Conversation(talk, attempts));
      reply.Response? && !validate(StripCodeFence(reply.text)).Raised?
    ensures var reply := client(|attempts|, Conversation(talk, attempts));
      Logged(client, validate, talk, attempts + [Recorded(|attempts|, reply, validate(StripCodeFence(reply.text)))])
  {
    hide StripCodeFence, Conversation;
    var reply := client(|attempts|, Conversation(talk, attempts));
    var all := attempts + [Recorded(|attempts|, reply, validate(StripCodeFence(reply.text)))];
    forall j | 0 <= j < |all| ensures LoggedAt(client, validate, talk, all, j) {
      assert all[..j] == attempts[..j];
      assert attempts[..|attempts|] == attempts;
      assert j < |attempts| ==> LoggedAt(client, validate, talk, attempts, j);
    }
  }

  /** Two runs with one client make the same calls and end the same way: the loop is
      determined by what the client and the validator answer. */
  lemma RunIsDetermined(client: Client, validate: string -> Verdict, talk: Talk, max: nat,
                        made: seq<Attempt>, outcome: Outcome, made': seq<Attempt>, outcome': Outcome)
    requires RunOf(client, validate, talk, max, made, outcome) && RunOf(client, validate, talk, max, made', outcome')
    ensures made == made' && outcome == outcome'
  {
    hide StripCodeFence, Conversation;
    var n := if |made| <= |made'| then |made| else |made'|;
    SameLog(client, validate, talk, made, made', n);
    assert made[..n] == made'[..n];
    assert |made| <= |made'| ==> made == made'[..n];
    assert |made'| <= |made| ==> made' == made[..n];
    assert |made| < |made'| ==> LoggedAt(client, validate, talk, made', n);
    assert |made'| < |made| ==> LoggedAt(client, validate, talk, made, n);
  }

  lemma {:induction false} SameLog(client: Client, validate: string -> Verdict, talk: Talk,
                                   a: seq<Attempt>, b: seq<Attempt>, n: nat)
    requires Logged(client, validate, talk, a) && Logged(client, validate, talk, b) && n <= |a| && n <= |b|
    ensures a[..n] == b[..n]
  {
    hide StripCodeFence, Conversation;
    if n > 0 {
      SameLog(client, validate, talk, a, b, n - 1);
      assert LoggedAt(client, validate, talk, a, n - 1) && LoggedAt(client, validate, talk, b, n - 1);
      assert a[..n] == a[..n - 1] + [a[n - 1]] && b[..n] == b[..n - 1] + [b[n - 1]];
    }
  }

  /** The log of a run is what was received: attempt j + 1 holds the text, usage and model of the
      client's j-th answer, and the verdict on that text, which is an acceptance for the last
      attempt of a success alone. */
  lemma LogIsWhatWasReceived(client: Client, validate: string -> Verdict, talk: Talk, max: nat,
                             made: seq<Attempt>, outcome: Outcome, j: nat)
    requires RunOf(client, validate, talk, max, made, outcome) && j < |made|
    ensures var reply := client(j, Conversation(talk, made[..j]));
      && reply.Response?
      && made[j].number == j + 1 && made[j].rawOutput == reply.text
      && made[j].usage == reply.usage && made[j].model == reply.model
      && var verdict := validate(StripCodeFence(reply.text));
      && (made[j].ok <==> verdict.Accepted?)
      && (made[j].ok <==> outcome.Success? && j == |made| - 1)
      && (made[j].validationError == if verdict.Rejected? then Some(verdict.error) else None)
      && (made[j].ok ==> outcome.output == verdict.output && outcome.model == reply.model)
  {
    hide StripCodeFence, Conversation;
    assert LoggedAt(client, validate, talk, made, j);
    if j == |made| - 1 {
      assert made[..j] + [made[j]] == made;
    }
  }

  // -------------------------------------------------------------------------------- usage

  /** totals.get(key, 0) */
  function Get(usage: Usage, key: string): int {
    if key in usage then usage[key] else 0
  }

  function UsageOf(attempts: seq<Attempt>, key: string): int {
    if attempts == [] then 0
    else UsageOf(attempts[..|attempts| - 1], key) + Get(attempts[|attempts| - 1].usage, key)
  }

  function UsedKeys(attempts: seq<Attempt>): set<string> {
    if attempts == [] then {}
    else UsedKeys(attempts[..|attempts| - 1]) + attempts[|attempts| - 1].usage.Keys
  }

  /** The totals of a log: exactly the keys that some attempt reports, each with its sum. */
  ghost predicate Totals(attempts: seq<Attempt>, totals: Usage) {
    && totals.Keys == UsedKeys(attempts)
    && (forall key :: Get(totals, key) == UsageOf(attempts, key))
    && forall key | key in totals :: totals[key] == UsageOf(attempts, key)
  }

  /** A key is in the totals when some attempt reports it; others count as zero. */
  lemma {:induction false} UsedKeysAre(attempts: seq<Attempt>, key: string)
    ensures key in UsedKeys(attempts) <==> exists j :: 0 <= j < |attempts| && key in attempts[j].usage
    ensures key !in UsedKeys(attempts) ==> UsageOf(attempts, key) == 0
  {
    if attempts != [] {
      var init := attempts[..|attempts| - 1];
      UsedKeysAre(init, key);
      assert forall j | 0 <= j < |init| :: init[j] == attempts[j];
    }
  }

  /** The usage of a log in two parts is the sum of the usages of the parts. */
  lemma {:induction false} UsageAddsUp(a: seq<Attempt>, b: seq<Attempt>, key: string)
    ensures UsageOf(a + b, key) == UsageOf(a, key) + UsageOf(b, key)
    ensures |b| == 1 ==> UsageOf(b, key) == if key in b[0].usage then b[0].usage[key] else 0
  {
    if b == [] {
      assert a + b == a;
    } else {
      assert (a + b)[..|a + b| - 1] == a + b[..|b| - 1];
      UsageAddsUp(a, b[..|b| - 1], key);
    }
  }

  method UsageTotals(attempts: seq<Attempt>) returns (totals: Usage)
    ensures Totals(attempts, totals)
  {
    totals := map[];
    for i := 0 to |attempts|
      invariant Totals(attempts[..i], totals)
    {
      assert attempts[..i + 1][..i] == attempts[..i];
      totals := AddUsage(totals, attempts[i].usage);
    }
    assert attempts[..|attempts|] == attempts;
  }

  method AddUsage(totals: Usage, usage: Usage) returns (after: Usage)
    ensures after.Keys == totals.Keys + usage.Keys
    ensures forall key :: Get(after, key) == Get(totals, key) + Get(usage, key)
  {
    after := totals;
    var left := usage;
    while left != map[]
      invariant after.Keys + left.Keys == totals.Keys + usage.Keys
      invariant forall key :: Get(after, key) + Get(left, key) == Get(totals, key) + Get(usage, key)
      decreases |left|
    {
      var key :| key in left;
      MoveKey(after, left, key);
      hide Get;
      after := after[key := Get(after, key) + left[key]];
      left := left - {key};
    }
  }

  lemma MoveKey(a: Usage, b: Usage, key: string)
    requires key in b
    ensures var (c, d) := (a[key := Get(a, key) + b[key]], b - {key});
      c.Keys + d.Keys == a.Keys + b.Keys && forall k :: Get(c, k) + Get(d, k) == Get(a, k) + Get(b, k)
  {
  }

  // ------------------------------------------------------------------------ what is stored

  datatype Status = Complete | Failed

  datatype FailureKind = TransientFailure | PermanentFailure | UnexpectedFailure

  datatype Row = Row(status: Status, record: Option<Record>, attempts: nat, log: seq<Attempt>, usage: Usage,
                     kind: Option<FailureKind>)

  /** The columns of the document the loop is run on. */
  datatype Source = Source(title: Option<string>, text: string, url: string)

  datatype Existing = Existing(id: Id, attempts: nat)

  datatype Result =
    | Duplicate(id: Id, attempts: nat)
    | NoDocument
    | Extracted(attempts: nat)
    | Raised(kind: FailureKind)

  function KindOf(kind: ErrorKind): FailureKind {
    if kind.Transient? then TransientFailure else PermanentFailure
  }

  /** The document's own title replaces the extracted one when it has one. */
  function WithTitle(record: Record, title: Option<string>): Record {
    if title.Some? && title.value != "" then
      record.(title := title.value, titleSource := "document_metadata")
    else record
  }

  /** What is stored and returned for an outcome of the loop. */
  ghost predicate StoredAs(outcome: Outcome, source: Source, row: Row, result: Result) {
    && Totals(row.log, row.usage) && row.attempts == |row.log|
    && match outcome
       case Success(output, attempts, _) =>
         && row.status == Complete && row.record == Some(WithTitle(output.record, source.title))
         && row.log == attempts && row.kind == None && result == Extracted(|attempts|)
       case Failure(kind, attempts) =>
         && row.status == Failed && row.record == None && row.log == attempts
         && row.kind == Some(KindOf(kind)) && result == Result.Raised(KindOf(kind))
       case Unexpected =>
         && row.status == Failed && row.record == None && row.log == []
         && row.kind == Some(UnexpectedFailure) && result == Result.Raised(UnexpectedFailure)
  }

  /** The stored row says which kind of failure it was, and a complete one holds the accepted
      record, under the document's own title when it has one. */
  lemma StoredRowMeans(outcome: Outcome, source: Source, row: Row, result: Result)
    requires StoredAs(outcome, source, row, result)
    ensures row.status == Complete <==> outcome.Success?
    ensures row.record.Some? <==> outcome.Success?
    ensures row.kind == (match outcome
                         case Success(_, _, _) => None
                         case Failure(Transient, _) => Some(TransientFailure)
                         case Failure(Permanent, _) => Some(PermanentFailure)
                         case Unexpected => Some(UnexpectedFailure))
    ensures outcome.Success? ==>
      var (stored, given) := (row.record.value, outcome.output.record);
      && stored.rest == given.rest
      && (source.title == None || source.title == Some("") ==> stored == given)
      && (source.title != None && source.title != Some("") ==>
            Some(stored.title) == source.title && stored.titleSource == "document_metadata")
    ensures result.Raised? <==> !outcome.Success?
    ensures result.Raised? ==> Some(result.kind) == row.kind
  {
    hide Totals;
  }

  /** The stored log and usage account for every response the loop received exactly when the
      loop did not end on an unexpected exception after some response. */
  lemma LogAccountsForResponses(client: Client, validate: string -> Verdict, talk: Talk, max: nat,
                                made: seq<Attempt>, outcome: Outcome, source: Source, row: Row, result: Result)
    requires |made| <= max && Ends(client, validate, talk, max, made, outcome) && StoredAs(outcome, source, row, result)
    ensures made <= row.log <==> outcome != Unexpected || made == []
    ensures outcome != Unexpected ==>
      var reply := client(|made|, Conversation(talk, made));
      var own := if outcome.Failure? && |made| < max && reply.Refused? then reply.attempts else [];
      row.log == made + own && forall key :: Get(row.usage, key) == UsageOf(made, key) + UsageOf(own, key)
  {
    hide Conversation, StripCodeFence;
    var reply := client(|made|, Conversation(talk, made));
    var own := if outcome.Failure? && |made| < max && reply.Refused? then reply.attempts else [];
    assert made + [] == made;
    forall key ensures UsageOf(made + own, key) == UsageOf(made, key) + UsageOf(own, key) {
      UsageAddsUp(made, own, key);
    }
  }

  class Extractions {
    var rows: seq<Row>

    constructor ()
      ensures rows == []
    {
      rows := [];
    }

    method InsertFailed(kind: FailureKind, attempts: seq<Attempt>)
      modifies this
      ensures |rows| == |old(rows)| + 1 && rows[..|old(rows)|] == old(rows)
      ensures var row := rows[|rows| - 1];
        row.status == Failed && row.record == None && row.log == attempts && row.attempts == |attempts|
        && row.kind == Some(kind) && Totals(attempts, row.usage)
    {
      var usage := UsageTotals(attempts);
      rows := rows + [Row(Failed, None, |attempts|, attempts, usage, Some(kind))];
    }

    /** One extract job: nothing to do, nothing to extract from, or one new row. */
    method ExtractDocument(existing: Option<Existing>, source: Option<Source>, userMessage: Source -> string,
                           retry: string -> string,
                           client: Client, validate: string -> Verdict, max: int)
      returns (result: Result, ghost made: seq<Attempt>, ghost outcome: Outcome)
      modifies this
      ensures existing.Some? ==> result == Duplicate(existing.value.id, existing.value.attempts) && rows == old(rows)
      ensures existing.None? && source.None? ==> result == NoDocument && rows == old(rows)
      ensures existing.None? && source.Some? ==>
        && |rows| == |old(rows)| + 1 && rows[..|old(rows)|] == old(rows)
        && StoredAs(outcome, source.value, rows[|rows| - 1], result)
        && (max < 1 ==> outcome == Unexpected && made == [])
        && (max >= 1 ==> RunOf(client, validate, Talk(User(userMessage(source.value)), retry), max, made, outcome))
    {
      hide RunOf, Totals;
      made, outcome := [], Unexpected;
      if existing.Some? {
        return Duplicate(existing.value.id, existing.value.attempts), made, outcome;
      }
      if source.None? {
        return NoDocument, made, outcome;
      }
      var ended := Unexpected;
      if max >= 1 {
        ended := Extract(client, validate, Talk(User(userMessage(source.value)), retry), max);
        made :| RunOf(client, validate, Talk(User(userMessage(source.value)), retry), max, made, ended);
      }
      outcome := ended;
      match ended
      case Failure(kind, attempts) =>
        InsertFailed(KindOf(kind), attempts);
        result := Result.Raised(KindOf(kind));
      case Unexpected =>
        InsertFailed(UnexpectedFailure, []);
        result := Result.Raised(UnexpectedFailure);
      case Success(output, attempts, _) =>
        var usage := UsageTotals(attempts);
        var record := WithTitle(output.record, source.value.title);
        rows := rows + [Row(Complete, Some(record), |attempts|, attempts, usage, None)];
        result := Extracted(|attempts|);
    }
  }
}

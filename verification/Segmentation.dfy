/** Cutting a document into sentences with a boundary scan and packing consecutive
    sentences into passages. */
module Segmentation {
  import opened Common

  datatype Span = Span(start: nat, end: nat)

  datatype Passage = Passage(start: nat, end: nat, text: string)

  /** A match of the boundary expression: where the sentence ends and where the next one may start. */
  datatype Boundary = Boundary(cut: nat, end: nat)

  predicate Stop(c: char) {
    c == '.' || c == '!' || c == '?'
  }

  predicate Closing(c: char) {
    c == '"' || c == '\'' || c == ')' || c == ']'
  }

  // ------------------------------------------------------------------- the boundary scan

  /** The end of the longest run from `i` of characters satisfying `p`. */
  function RunEnd(doc: string, i: nat, p: char -> bool): (j: nat)
    requires i <= |doc|
    ensures i <= j <= |doc|
    ensures forall k | i <= k < j :: p(doc[k])
    ensures j < |doc| ==> !p(doc[j])
    decreases |doc| - i
  {
    if i < |doc| && p(doc[i]) then RunEnd(doc, i + 1, p) else i
  }

  /** The boundary expression anchored at `i`: stops, closings and white space, or a line break. */
  function MatchAt(doc: string, i: nat): (m: Option<Boundary>)
    requires i < |doc|
    ensures m.Some? ==> i <= m.value.cut < m.value.end <= |doc|
  {
    if Stop(doc[i]) then
      var cut := RunEnd(doc, RunEnd(doc, i, Stop), Closing);
      var end := RunEnd(doc, cut, IsSpace);
      if cut < end then Some(Boundary(cut, end)) else None
    else if doc[i] == '\n' then Some(Boundary(i, i + 1))
    else None
  }

  /** Whether doc[i..end] reads as stops, then closings up to `cut`, then white space. */
  ghost predicate Parses(doc: string, i: nat, mid: nat, cut: nat, end: nat) {
    && i < mid <= cut < end <= |doc|
    && (forall k | i <= k < mid :: Stop(doc[k]))
    && (forall k | mid <= k < cut :: Closing(doc[k]))
    && (forall k | cut <= k < end :: IsSpace(doc[k]))
  }

  /** Giving characters back never helps: every way to read the first alternative at `i`
      ends its sentence at the same place as the greedy one and reaches no further. */
  lemma MatchIsGreedy(doc: string, i: nat, mid: nat, cut: nat, end: nat)
    requires Parses(doc, i, mid, cut, end)
    ensures MatchAt(doc, i).Some? && MatchAt(doc, i).value.cut == cut && end <= MatchAt(doc, i).value.end
  {
    var j := RunEnd(doc, i, Stop);
    var k := RunEnd(doc, j, Closing);
    assert j == mid && k == cut by {
      assert mid < |doc| && !Stop(doc[mid]);
      assert !Closing(doc[cut]);
    }
  }

  /** The leftmost match at or after `i`. */
  function Find(doc: string, i: nat): (m: Option<(nat, Boundary)>)
    requires i <= |doc|
    ensures m.Some? ==> i <= m.value.0 < |doc| && MatchAt(doc, m.value.0) == Some(m.value.1)
    ensures forall k | i <= k < (if m.Some? then m.value.0 else |doc|) :: MatchAt(doc, k).None?
    decreases |doc| - i
  {
    if i == |doc| then None
    else if MatchAt(doc, i).Some? then Some((i, MatchAt(doc, i).value))
    else Find(doc, i + 1)
  }

  // --------------------------------------------------------------------------- sentences

  /** The text before `a` ends with a stop and any closings. */
  predicate EndsSentence(doc: string, a: nat)
    requires a <= |doc|
  {
    a > 0 && (Stop(doc[a - 1]) || (Closing(doc[a - 1]) && EndsSentence(doc, a - 1)))
  }

  predicate Blank(doc: string, a: nat, b: nat)
    requires b <= |doc|
  {
    forall k | a <= k < b :: IsSpace(doc[k])
  }

  /** White space from `a` to `b` that separates sentences. */
  predicate Splits(doc: string, a: nat, b: nat)
    requires a <= b <= |doc|
  {
    EndsSentence(doc, a) || exists k :: a <= k < b && doc[k] == '\n'
  }

  /** A trimmed stretch of text that no white space inside it splits. */
  predicate IsSentence(doc: string, s: Span) {
    && s.start < s.end <= |doc|
    && !IsSpace(doc[s.start]) && !IsSpace(doc[s.end - 1])
    && forall k | s.start < k < s.end && IsSpace(doc[k]) :: doc[k] != '\n' && !EndsSentence(doc, k)
  }

  /** Splitting white space lies between sentence `i` and the one before it. */
  predicate Apart(doc: string, spans: seq<Span>, i: nat) {
    && 0 < i < |spans| && spans[i - 1].end < spans[i].start <= |doc|
    && Blank(doc, spans[i - 1].end, spans[i].start)
    && Splits(doc, spans[i - 1].end, spans[i].start)
  }

  /** Consecutive sentences with splitting white space between them. */
  predicate SentencesUpTo(doc: string, spans: seq<Span>, end: nat)
    requires end <= |doc|
  {
    && (forall i | 0 <= i < |spans| :: IsSentence(doc, spans[i]) && spans[i].end <= end)
    && (forall i | 0 < i < |spans| :: Apart(doc, spans, i))
    && Blank(doc, 0, if spans == [] then end else spans[0].start)
    && (spans != [] ==> Blank(doc, spans[|spans| - 1].end, end))
  }

  /** The whole document is cut into sentences. */
  predicate Sentenced(doc: string, spans: seq<Span>) {
    SentencesUpTo(doc, spans, |doc|)
  }

  lemma {:induction false} TrimLeftDropsBlanks(s: string)
    ensures |TrimLeft(s)| <= |s|
    ensures forall k | 0 <= k < |s| - |TrimLeft(s)| :: IsSpace(s[k])
    ensures TrimLeft(s) != [] ==> !IsSpace(s[|s| - |TrimLeft(s)|])
  {
    if s != [] && IsSpace(s[0]) {
      TrimLeftDropsBlanks(s[1..]);
      forall k | 0 <= k < |s| - |TrimLeft(s)| ensures IsSpace(s[k]) {
        assert k > 0 ==> s[k] == s[1..][k - 1];
      }
    }
  }

  lemma {:induction false} TrimRightDropsBlanks(s: string)
    ensures |TrimRight(s)| <= |s|
    ensures forall k | |TrimRight(s)| <= k < |s| :: IsSpace(s[k])
    ensures TrimRight(s) != [] ==> !IsSpace(s[|TrimRight(s)| - 1])
  {
    if s != [] && IsSpace(s[|s| - 1]) {
      TrimRightDropsBlanks(s[..|s| - 1]);
    }
  }

  /** A sentence end right before white space is where a boundary matches, unless the stop
      lies before `start`. */
  lemma {:induction false} EndIsFound(doc: string, start: nat, a: nat)
    requires start < a < |doc| && IsSpace(doc[a]) && EndsSentence(doc, a)
    requires start > 0 ==> IsSpace(doc[start - 1])
    ensures exists q :: start <= q < a && MatchAt(doc, q).Some?
  {
    var q := StopBefore(doc, a);
    assert forall k | q <= k < a :: !IsSpace(doc[k]);
    assert Parses(doc, q, q + 1, a, a + 1) ;
    MatchIsGreedy(doc, q, q + 1, a, a + 1);
  }

  lemma {:induction false} StopBefore(doc: string, a: nat) returns (q: nat)
    requires a <= |doc| && EndsSentence(doc, a)
    ensures q < a && Stop(doc[q]) && forall k | q < k < a :: Closing(doc[k])
  {
    if Stop(doc[a - 1]) {
      q := a - 1;
    } else {
      q := StopBefore(doc, a - 1);
    }
  }

  /** A stretch of text without boundaries, once trimmed, is a sentence. */
  lemma TrimmedIsSentence(doc: string, start: nat, q: nat, cut: nat, s: Span)
    requires start <= q <= cut <= |doc| && start <= s.start < s.end <= cut
    requires start > 0 ==> IsSpace(doc[start - 1])
    requires forall k | start <= k < q :: MatchAt(doc, k).None?
    requires forall k | q <= k < cut :: !IsSpace(doc[k])
    requires !IsSpace(doc[s.start]) && !IsSpace(doc[s.end - 1])
    ensures IsSentence(doc, s)
  {
    forall k | s.start < k < s.end && IsSpace(doc[k])
      ensures doc[k] != '\n' && !EndsSentence(doc, k)
    {
      assert MatchAt(doc, k).None?;
      if EndsSentence(doc, k) {
        EndIsFound(doc, start, k);
      }
    }
  }

  /** The span of doc[start..cut] without the white space around it; `None` when it is blank. */
  function TrimSpan(doc: string, start: nat, cut: nat): (r: Option<Span>)
    requires start <= cut <= |doc|
    ensures r.None? ==> Blank(doc, start, cut)
    ensures r.Some? ==>
      && start <= r.value.start < r.value.end <= cut
      && !IsSpace(doc[r.value.start]) && !IsSpace(doc[r.value.end - 1])
      && Blank(doc, start, r.value.start) && Blank(doc, r.value.end, cut)
  {
    var text := doc[start..cut];
    TrimLeftDropsBlanks(text);
    TrimRightDropsBlanks(text);
    var lead := |text| - |TrimLeft(text)|;
    var trail := |text| - |TrimRight(text)|;
    assert forall k | start <= k < cut :: doc[k] == text[k - start];
    if cut - trail > start + lead then Some(Span(start + lead, cut - trail)) else None
  }

  /** What holds when the scan has reached `start`. */
  predicate Scanned(doc: string, spans: seq<Span>, start: nat) {
    && start <= |doc|
    && (start > 0 ==> IsSpace(doc[start - 1]))
    && SentencesUpTo(doc, spans, start)
    && (spans != [] ==> Splits(doc, spans[|spans| - 1].end, start))
  }

  method Sentences(doc: string) returns (spans: seq<Span>)
    ensures Sentenced(doc, spans)
  {
    spans := [];
    var start := 0;
    var next := Find(doc, 0);
    while next.Some?
      invariant Scanned(doc, spans, start) && next == Find(doc, start)
      decreases |doc| - start
    {
      var boundary := next.value.1;
      var span := TrimSpan(doc, start, boundary.cut);
      ScanStep(doc, spans, start);
      if span.Some? {
        spans := spans + [span.value];
      }
      start := boundary.end;
      next := Find(doc, start);
    }
    var last := TrimSpan(doc, start, |doc|);
    LastSentence(doc, spans, start);
    if last.Some? {
      spans := spans + [last.value];
    }
  }

  /** White space up to `start` continues to the next sentence. */
  lemma GapSplits(doc: string, spans: seq<Span>, start: nat, next: nat)
    requires Scanned(doc, spans, start) && start <= next <= |doc| && Blank(doc, start, next)
    ensures spans == [] ==> Blank(doc, 0, next)
    ensures spans != [] ==> Blank(doc, spans[|spans| - 1].end, next) && Splits(doc, spans[|spans| - 1].end, next)
    ensures spans != [] ==> spans[|spans| - 1].end < next
  {
    hide EndsSentence;
    assert spans != [] ==> !IsSpace(doc[spans[|spans| - 1].end - 1]);
  }

  /** Adding a sentence after splitting white space. */
  lemma AddSentence(doc: string, spans: seq<Span>, start: nat, s: Span, end: nat)
    requires Scanned(doc, spans, start) && IsSentence(doc, s) && start <= s.start && s.end <= end <= |doc|
    requires Blank(doc, start, s.start) && Blank(doc, s.end, end)
    ensures SentencesUpTo(doc, spans + [s], end)
  {
    GapSplits(doc, spans, start, s.start);
    assert SentencesUpTo(doc, spans, start);
    hide IsSentence, EndsSentence, Blank, Splits, Scanned;
    ApartExtends(doc, spans, s);
    hide Apart;
  }

  lemma ApartExtends(doc: string, spans: seq<Span>, s: Span)
    requires forall i | 0 < i < |spans| :: Apart(doc, spans, i)
    requires s.start <= |doc|
    requires spans != [] ==>
      var a := spans[|spans| - 1].end;
      a < s.start && Blank(doc, a, s.start) && Splits(doc, a, s.start)
    ensures forall i | 0 < i < |spans + [s]| :: Apart(doc, spans + [s], i)
  {
    hide Blank, Splits;
    var all := spans + [s];
    forall i | 0 < i < |all| ensures Apart(doc, all, i) {
      assert i < |spans| ==> Apart(doc, spans, i);
    }
  }

  lemma ScanStep(doc: string, spans: seq<Span>, start: nat)
    requires Scanned(doc, spans, start) && Find(doc, start).Some?
    ensures var b := Find(doc, start).value.1;
      var span := TrimSpan(doc, start, b.cut);
      Scanned(doc, if span.Some? then spans + [span.value] else spans, b.end)
  {
    hide IsSentence, EndsSentence, MatchAt, Find, TrimSpan;
    var q, b := Find(doc, start).value.0, Find(doc, start).value.1;
    var span := TrimSpan(doc, start, b.cut);
    MatchEnds(doc, q);
    if span.Some? {
      TrimmedIsSentence(doc, start, q, b.cut, span.value);
      AddSentence(doc, spans, start, span.value, b.end);
    }
    assert doc[q] == '\n' ==> b.end > q >= start;
  }

  /** What a match says about the text around its cut. */
  lemma MatchEnds(doc: string, q: nat)
    requires q < |doc| && MatchAt(doc, q).Some?
    ensures var b := MatchAt(doc, q).value;
      && (forall k | q <= k < b.cut :: !IsSpace(doc[k]))
      && Blank(doc, b.cut, b.end)
      && (if doc[q] == '\n' then b.cut == q else b.cut > q && EndsSentence(doc, b.cut))
  {
    if Stop(doc[q]) {
      var j := RunEnd(doc, q, Stop);
      StopsEnd(doc, j, RunEnd(doc, j, Closing));
    }
  }

  lemma {:induction false} StopsEnd(doc: string, j: nat, k: nat)
    requires 0 < j <= k <= |doc| && Stop(doc[j - 1]) && forall i | j <= i < k :: Closing(doc[i])
    ensures EndsSentence(doc, k)
  {
    if j < k {
      StopsEnd(doc, j, k - 1);
    }
  }

  lemma LastSentence(doc: string, spans: seq<Span>, start: nat)
    requires Scanned(doc, spans, start) && Find(doc, start).None?
    ensures var last := TrimSpan(doc, start, |doc|);
      Sentenced(doc, if last.Some? then spans + [last.value] else spans)
  {
    hide IsSentence, EndsSentence, MatchAt, Find, TrimSpan;
    var last := TrimSpan(doc, start, |doc|);
    if last.Some? {
      TrimmedIsSentence(doc, start, |doc|, |doc|, last.value);
      AddSentence(doc, spans, start, last.value, |doc|);
    }
  }

  /** There is one way to cut a document into sentences, so the scan computes it. */
  lemma {:induction false} SentencedUnique(doc: string, s: seq<Span>, t: seq<Span>, n: nat)
    requires Sentenced(doc, s) && Sentenced(doc, t) && n <= |s|
    ensures n <= |t| && s[..n] == t[..n]
    ensures n == |s| ==> s == t
  {
    hide Sentenced;
    if n > 0 {
      SentencedUnique(doc, s, t, n - 1);
      SameNext(doc, s, t, n - 1);
      assert s[..n] == s[..n - 1] + [s[n - 1]] && t[..n] == t[..n - 1] + [t[n - 1]];
    }
    assert s[..|s|] == s;
    if n == |s| && n < |t| {
      SameNext(doc, t, s, n);
    }
  }

  lemma SameNext(doc: string, s: seq<Span>, t: seq<Span>, i: nat)
    requires Sentenced(doc, s) && Sentenced(doc, t) && i < |s| && i <= |t| && s[..i] == t[..i]
    ensures i < |t| && s[i] == t[i]
  {
    assert i > 0 ==> s[i - 1] == s[..i][i - 1] == t[i - 1] && Apart(doc, s, i);
    var from := if i == 0 then 0 else s[i - 1].end;
    assert Blank(doc, from, s[i].start) && from <= s[i].start;
    assert !IsSpace(doc[s[i].start]);
    assert i < |t|;
    assert i > 0 ==> Apart(doc, t, i);
    assert Blank(doc, from, t[i].start) && from <= t[i].start;
    assert s[i].start == t[i].start;
    NotEarlier(doc, s, t, i);
    NotEarlier(doc, t, s, i);
  }

  lemma NotEarlier(doc: string, s: seq<Span>, t: seq<Span>, i: nat)
    requires Sentenced(doc, s) && Sentenced(doc, t) && i < |s| && i < |t| && s[i].start == t[i].start
    ensures s[i].end >= t[i].end
  {
    if i + 1 < |s| {
      assert Apart(doc, s, i + 1);
      EndsBySplit(doc, t[i], s[i].end, s[i + 1].start);
    } else {
      EndsBySplit(doc, t[i], s[i].end, |doc|);
    }
  }

  /** A sentence does not go past splitting white space or the last character. */
  lemma EndsBySplit(doc: string, t: Span, a: nat, b: nat)
    requires IsSentence(doc, t) && t.start < a <= b <= |doc| && Blank(doc, a, b)
    requires b < |doc| ==> a < b && !IsSpace(doc[b]) && Splits(doc, a, b)
    ensures t.end <= a
  {
    hide EndsSentence;
    assert !IsSpace(doc[t.end - 1]);
    assert t.end <= a || b < t.end;
  }
}

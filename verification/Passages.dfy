/** Packing consecutive sentences into passages of at most a window of characters. */
module Passages {
  import opened Common
  import opened Segmentation

  predicate Indent(c: char) {
    c == ' ' || c == '\t'
  }

  /** A line break, spaces or tabs, and another line break somewhere in `text`. */
  predicate HasBlankLine(text: string) {
    exists i, j | 0 <= i < j < |text| :: BlankLineAt(text, i, j)
  }

  predicate BlankLineAt(text: string, i: nat, j: nat) {
    i < j < |text| && text[i] == '\n' && text[j] == '\n' && forall k | i < k < j :: Indent(text[k])
  }

  /** Whether `next` extends a passage that began at `start` and so far ends with `last`. */
  predicate Joins(doc: string, window: int, start: nat, last: Span, next: Span)
    requires last.end <= next.start <= |doc|
  {
    next.end - start <= window && !HasBlankLine(doc[last.end..next.start])
  }

  /** Sentence `i` joins the passage that sentence `first` began. */
  predicate Continues(doc: string, window: int, spans: seq<Span>, first: nat, i: nat) {
    && first < i < |spans| && spans[i - 1].end <= spans[i].start <= |doc|
    && Joins(doc, window, spans[first].start, spans[i - 1], spans[i])
  }

  /** The passage made of the sentences from `first` up to `end`. */
  function PassageFrom(doc: string, spans: seq<Span>, first: nat, end: nat): Passage
    requires Sentenced(doc, spans) && first < end <= |spans|
  {
    SpansAscend(doc, spans, first, end - 1);
    Passage(spans[first].start, spans[end - 1].end, doc[spans[first].start..spans[end - 1].end])
  }

  lemma {:induction false} SpansAscend(doc: string, spans: seq<Span>, i: nat, j: nat)
    requires Sentenced(doc, spans) && i <= j < |spans|
    ensures spans[i].start < spans[i].end <= spans[j].end <= |doc| && spans[i].start <= spans[j].start
    ensures i < j ==> spans[i].end < spans[j].start
    decreases j - i
  {
    assert IsSentence(doc, spans[j]) && IsSentence(doc, spans[i]);
    if i < j {
      SpansAscend(doc, spans, i, j - 1);
      assert Apart(doc, spans, j);
    }
  }

  /** Passage k takes sentences for as long as they join, and the next one begins with the
      first that does not. */
  ghost predicate GreedyAt(doc: string, window: int, spans: seq<Span>, cuts: seq<nat>, k: nat, p: Passage)
    requires Sentenced(doc, spans)
  {
    && k + 1 < |cuts| && cuts[k] < cuts[k + 1] <= |spans|
    && p == PassageFrom(doc, spans, cuts[k], cuts[k + 1])
    && (forall i | cuts[k] < i < cuts[k + 1] :: Continues(doc, window, spans, cuts[k], i))
    && !Continues(doc, window, spans, cuts[k], cuts[k + 1])
  }

  /** The passages made so far, the next one beginning with sentence cuts[|out|]. */
  ghost predicate Closed(doc: string, window: int, spans: seq<Span>, cuts: seq<nat>, out: seq<Passage>)
    requires Sentenced(doc, spans)
  {
    && |cuts| == |out| + 1 && cuts[0] == 0
    && forall k | 0 <= k < |out| :: GreedyAt(doc, window, spans, cuts, k, out[k])
  }

  /** Greedy packing of all the sentences. */
  ghost predicate Packed(doc: string, window: int, spans: seq<Span>, cuts: seq<nat>, out: seq<Passage>) {
    Sentenced(doc, spans) && Closed(doc, window, spans, cuts, out) && cuts[|out|] == |spans|
  }

  lemma CloseOne(doc: string, window: int, spans: seq<Span>, cuts: seq<nat>, out: seq<Passage>, end: nat)
    requires Sentenced(doc, spans) && Closed(doc, window, spans, cuts, out) && cuts[|out|] < end <= |spans|
    requires forall i | cuts[|out|] < i < end :: Continues(doc, window, spans, cuts[|out|], i)
    requires !Continues(doc, window, spans, cuts[|out|], end)
    ensures Closed(doc, window, spans, cuts + [end], out + [PassageFrom(doc, spans, cuts[|out|], end)])
  {
    hide Sentenced, Continues, PassageFrom;
    var more, all := cuts + [end], out + [PassageFrom(doc, spans, cuts[|out|], end)];
    forall k | 0 <= k < |all| ensures GreedyAt(doc, window, spans, more, k, all[k]) {
      assert k < |out| ==> GreedyAt(doc, window, spans, cuts, k, out[k]);
    }
  }

  /** What a reader of the passages relies on. */
  ghost predicate Faithful(doc: string, window: int, spans: seq<Span>, p: Passage) {
    && p.start < p.end <= |doc| && p.text == doc[p.start..p.end]
    && !IsSpace(doc[p.start]) && !IsSpace(doc[p.end - 1])
    && !HasBlankLine(p.text)
    && (p.end - p.start > window ==> Span(p.start, p.end) in spans)
  }

  /** The first sentence of `next` could not have joined the passage before it. */
  ghost predicate Parted(doc: string, window: int, spans: seq<Span>, p: Passage, next: Passage) {
    && p.end <= next.start <= |doc|
    && exists s | s in spans ::
         s.start == next.start && (s.end - p.start > window || HasBlankLine(doc[p.end..next.start]))
  }

  method Passages(doc: string, window: int) returns (out: seq<Passage>, ghost spans: seq<Span>, ghost cuts: seq<nat>)
    ensures Packed(doc, window, spans, cuts, out)
    ensures forall k | 0 <= k < |out| :: Faithful(doc, window, spans, out[k])
    ensures forall j, k | 0 <= j < k < |out| :: out[j].end < out[k].start
    ensures forall k | 0 < k < |out| :: Parted(doc, window, spans, out[k - 1], out[k])
    ensures forall p | 0 <= p < |doc| && !IsSpace(doc[p]) ::
              exists k :: 0 <= k < |out| && out[k].start <= p < out[k].end
  {
    hide HasBlankLine, GreedyAt, Sentenced, Continues, Faithful, Parted;
    out := [];
    var sentences := Sentences(doc);
    spans, cuts := sentences, [0];
    var current: Option<Span> := None;
    for i := 0 to |sentences|
      invariant Closed(doc, window, sentences, cuts, out)
      invariant i == 0 ==> current.None? && cuts == [0] && out == []
      invariant i > 0 ==> current.Some? && cuts[|out|] < i
      invariant i > 0 ==> current.value == Span(sentences[cuts[|out|]].start, sentences[i - 1].end)
      invariant forall j | cuts[|out|] < j < i :: Continues(doc, window, sentences, cuts[|out|], j)
    {
      hide Closed;
      var next := sentences[i];
      if current.Some? {
        ContinuesMeans(doc, window, sentences, cuts[|out|], i);
        var gap := doc[current.value.end..next.start];
        if next.end - current.value.start <= window && !HasBlankLine(gap) {
          current := Some(Span(current.value.start, next.end));
          continue;
        }
        CloseOne(doc, window, sentences, cuts, out, i);
        SpansAscend(doc, sentences, cuts[|out|], i - 1);
        out := out + [Passage(current.value.start, current.value.end, doc[current.value.start..current.value.end])];
        cuts := cuts + [i];
      }
      current := Some(next);
    }
    if current.Some? {
      NothingContinues(doc, window, sentences, cuts[|out|]);
      CloseOne(doc, window, sentences, cuts, out, |sentences|);
      SpansAscend(doc, sentences, cuts[|out|], |sentences| - 1);
      out := out + [Passage(current.value.start, current.value.end, doc[current.value.start..current.value.end])];
      cuts := cuts + [|sentences|];
    }
    PackedIsFaithful(doc, window, spans, cuts, out);
  }

  lemma ContinuesMeans(doc: string, window: int, spans: seq<Span>, first: nat, i: nat)
    requires Sentenced(doc, spans) && first < i < |spans|
    ensures spans[i - 1].end <= spans[i].start <= |doc|
    ensures Continues(doc, window, spans, first, i) <==>
            spans[i].end - spans[first].start <= window && !HasBlankLine(doc[spans[i - 1].end..spans[i].start])
  {
    SpansAscend(doc, spans, i - 1, i);
  }

  lemma NothingContinues(doc: string, window: int, spans: seq<Span>, first: nat)
    ensures !Continues(doc, window, spans, first, |spans|)
  {
  }

  /** Between two sentences of one run, a character is in a sentence or in the gap before one. */
  lemma {:induction false} Locate(doc: string, spans: seq<Span>, a: nat, b: nat, p: nat) returns (m: nat)
    requires Sentenced(doc, spans) && a <= b < |spans| && spans[a].start <= p < spans[b].end
    ensures a <= m <= b && p < spans[m].end && (spans[m].start <= p || (m > a && spans[m - 1].end <= p))
    decreases b - a
  {
    if spans[b].start <= p || a == b {
      m := b;
    } else if spans[b - 1].end <= p {
      m := b;
    } else {
      m := Locate(doc, spans, a, b - 1, p);
    }
  }

  /** A run of joined sentences has no blank line in it. */
  lemma NoBlankLineInside(doc: string, window: int, spans: seq<Span>, first: nat, end: nat, i: nat, j: nat)
    requires Sentenced(doc, spans) && first < end <= |spans|
    requires forall m | first < m < end :: Continues(doc, window, spans, first, m)
    requires spans[first].start <= i && j < spans[end - 1].end <= |doc|
    ensures !BlankLineAt(doc, i, j)
  {
    if BlankLineAt(doc, i, j) {
      var m := Locate(doc, spans, first, end - 1, i);
      assert IsSentence(doc, spans[m]);
      assert !IsSpace(doc[spans[m].start]);
      assert spans[m].start > j;
      assert Continues(doc, window, spans, first, m);
      var gap := doc[spans[m - 1].end..spans[m].start];
      assert BlankLineAt(gap, i - spans[m - 1].end, j - spans[m - 1].end);
    }
  }

  lemma PassageIsFaithful(doc: string, window: int, spans: seq<Span>, cuts: seq<nat>, out: seq<Passage>, k: nat)
    requires Packed(doc, window, spans, cuts, out) && k < |out|
    ensures Faithful(doc, window, spans, out[k])
  {
    hide Sentenced, HasBlankLine, Continues;
    var first, end, p := cuts[k], cuts[k + 1], out[k];
    assert GreedyAt(doc, window, spans, cuts, k, p);
    SpansAscend(doc, spans, first, end - 1);
    TrimmedSpan(doc, spans, first);
    TrimmedSpan(doc, spans, end - 1);
    assert !HasBlankLine(p.text) by {
      NoBlankLineIn(doc, window, spans, first, end);
    }
    if end > first + 1 {
      assert Continues(doc, window, spans, first, end - 1);
      FitsWindow(doc, window, spans, first, end - 1);
    }
  }

  lemma FitsWindow(doc: string, window: int, spans: seq<Span>, first: nat, i: nat)
    requires Continues(doc, window, spans, first, i)
    ensures spans[i].end - spans[first].start <= window
  {
  }

  lemma TrimmedSpan(doc: string, spans: seq<Span>, i: nat)
    requires Sentenced(doc, spans) && i < |spans|
    ensures IsSentence(doc, spans[i])
  {
  }

  lemma NoBlankLineIn(doc: string, window: int, spans: seq<Span>, first: nat, end: nat)
    requires Sentenced(doc, spans) && first < end <= |spans|
    requires forall m | first < m < end :: Continues(doc, window, spans, first, m)
    ensures !HasBlankLine(PassageFrom(doc, spans, first, end).text)
  {
    hide Sentenced, Continues, BlankLineAt;
    SpansAscend(doc, spans, first, end - 1);
    var p := PassageFrom(doc, spans, first, end);
    forall i, j | 0 <= i < j < |p.text| ensures !BlankLineAt(p.text, i, j) {
      NoBlankLineInside(doc, window, spans, first, end, p.start + i, p.start + j);
      BlankLineMoves(doc, p.start, p.end, i, j);
    }
  }

  lemma BlankLineMoves(doc: string, a: nat, b: nat, i: nat, j: nat)
    requires a <= b <= |doc|
    ensures BlankLineAt(doc[a..b], i, j) ==> BlankLineAt(doc, a + i, a + j)
  {
    assert forall k | a <= k < b :: doc[k] == doc[a..b][k - a];
  }

  lemma {:induction false} CutsAscend(doc: string, window: int, spans: seq<Span>, cuts: seq<nat>, out: seq<Passage>,
                                      j: nat, k: nat)
    requires Packed(doc, window, spans, cuts, out) && j <= k < |cuts|
    ensures cuts[j] <= cuts[k] && (j < k ==> cuts[j] < cuts[k])
    decreases k
  {
    hide Sentenced, Continues, PassageFrom;
    if j < k {
      assert GreedyAt(doc, window, spans, cuts, k - 1, out[k - 1]);
      CutsAscend(doc, window, spans, cuts, out, j, k - 1);
    }
  }

  /** The passage that holds sentence `i`. */
  lemma {:induction false} HolderOf(doc: string, window: int, spans: seq<Span>, cuts: seq<nat>, out: seq<Passage>,
                                    i: nat, n: nat)
    returns (k: nat)
    requires Packed(doc, window, spans, cuts, out) && n <= |out| && i < cuts[n]
    ensures k < n && cuts[k] <= i < cuts[k + 1]
    decreases n
  {
    hide Sentenced, Continues, PassageFrom;
    if cuts[n - 1] <= i {
      k := n - 1;
    } else {
      k := HolderOf(doc, window, spans, cuts, out, i, n - 1);
    }
  }

  /** Greedy packing yields verbatim, trimmed passages without blank lines, longer than the
      window only when one sentence is; they ascend and hold every character that is not
      white space. */
  lemma PackedIsFaithful(doc: string, window: int, spans: seq<Span>, cuts: seq<nat>, out: seq<Passage>)
    requires Packed(doc, window, spans, cuts, out)
    ensures forall k | 0 <= k < |out| :: Faithful(doc, window, spans, out[k])
    ensures forall j, k | 0 <= j < k < |out| :: out[j].end < out[k].start
    ensures forall k | 0 < k < |out| :: Parted(doc, window, spans, out[k - 1], out[k])
    ensures forall p | 0 <= p < |doc| && !IsSpace(doc[p]) ::
              exists k :: 0 <= k < |out| && out[k].start <= p < out[k].end
  {
    hide Continues, Faithful, Sentenced, Parted;
    forall k | 0 < k < |out| ensures Parted(doc, window, spans, out[k - 1], out[k]) {
      PassagesParted(doc, window, spans, cuts, out, k);
    }
    forall k | 0 <= k < |out| ensures Faithful(doc, window, spans, out[k]) {
      PassageIsFaithful(doc, window, spans, cuts, out, k);
    }
    forall j, k | 0 <= j < k < |out| ensures out[j].end < out[k].start {
      CutsAscend(doc, window, spans, cuts, out, j + 1, k);
      assert GreedyAt(doc, window, spans, cuts, j, out[j]) && GreedyAt(doc, window, spans, cuts, k, out[k]);
      SpansAscend(doc, spans, cuts[j + 1] - 1, cuts[k]);
    }
    forall p | 0 <= p < |doc| && !IsSpace(doc[p])
      ensures exists k :: 0 <= k < |out| && out[k].start <= p < out[k].end
    {
      var i := SentenceAt(doc, spans, p);
      var k := HolderOf(doc, window, spans, cuts, out, i, |out|);
      assert GreedyAt(doc, window, spans, cuts, k, out[k]);
      SpansAscend(doc, spans, cuts[k], i);
      SpansAscend(doc, spans, i, cuts[k + 1] - 1);
    }
  }

  lemma PassagesParted(doc: string, window: int, spans: seq<Span>, cuts: seq<nat>, out: seq<Passage>, k: nat)
    requires Packed(doc, window, spans, cuts, out) && 0 < k < |out|
    ensures Parted(doc, window, spans, out[k - 1], out[k])
  {
    hide Continues, Sentenced, HasBlankLine;
    assert GreedyAt(doc, window, spans, cuts, k - 1, out[k - 1]) && GreedyAt(doc, window, spans, cuts, k, out[k]);
    ContinuesMeans(doc, window, spans, cuts[k - 1], cuts[k]);
    assert spans[cuts[k]] in spans;
  }

  /** Every character that is not white space is in a sentence. */
  lemma SentenceAt(doc: string, spans: seq<Span>, p: nat) returns (i: nat)
    requires Sentenced(doc, spans) && p < |doc| && !IsSpace(doc[p])
    ensures i < |spans| && spans[i].start <= p < spans[i].end
  {
    i := Locate(doc, spans, 0, |spans| - 1, p);
    assert i > 0 ==> Apart(doc, spans, i);
  }

  /** The passages are a function of the document and the window. */
  lemma {:induction false} PackedUnique(doc: string, window: int, spans: seq<Span>, cuts: seq<nat>, out: seq<Passage>,
                                        spans': seq<Span>, cuts': seq<nat>, out': seq<Passage>)
    requires Packed(doc, window, spans, cuts, out) && Packed(doc, window, spans', cuts', out')
    ensures out == out'
  {
    SentencedUnique(doc, spans, spans', |spans|);
    SameCuts(doc, window, spans, cuts, out, cuts', out', |out|);
    if |out| < |out'| {
      CutsAscend(doc, window, spans, cuts', out', |out|, |out'|);
    }
  }

  lemma StopsAtOrAfter(doc: string, window: int, spans: seq<Span>, first: nat, end: nat, other: nat)
    requires first < other && !Continues(doc, window, spans, first, other)
    requires forall i | first < i < end :: Continues(doc, window, spans, first, i)
    ensures end <= other
  {
  }

  lemma {:induction false} SameCuts(doc: string, window: int, spans: seq<Span>, cuts: seq<nat>, out: seq<Passage>,
                                    cuts': seq<nat>, out': seq<Passage>, n: nat)
    requires Packed(doc, window, spans, cuts, out) && Packed(doc, window, spans, cuts', out') && n <= |out|
    ensures n <= |out'| && cuts[n] == cuts'[n] && out[..n] == out'[..n]
  {
    hide Sentenced, Continues, PassageFrom;
    if n > 0 {
      SameCuts(doc, window, spans, cuts, out, cuts', out', n - 1);
      var a, k := cuts[n - 1], n - 1;
      assert GreedyAt(doc, window, spans, cuts, k, out[k]);
      assert k < |out'|;
      assert GreedyAt(doc, window, spans, cuts', k, out'[k]);
      StopsAtOrAfter(doc, window, spans, a, cuts[n], cuts'[n]);
      StopsAtOrAfter(doc, window, spans, a, cuts'[n], cuts[n]);
      assert out[..n] == out[..k] + [out[k]] && out'[..n] == out'[..k] + [out'[k]];
    }
  }
}

/** Choosing which passages of a document to show a reviewer first. */
module Candidates {
  import opened Common
  import opened Ordering
  import opened Segmentation
  import opened Passages

  const WINDOW_CHARS := 400
  const MAX_CANDIDATES := 5
  const MIN_CANDIDATES := 3

  /** A cue of a field: its name and how often it matches a text. */
  datatype Cue = Cue(name: string, count: string -> nat)

  datatype Candidate = Candidate(start: nat, end: nat, text: string, cues: seq<string>)

  function Distinct(cues: seq<Cue>, text: string): nat {
    if cues == [] then 0 else (if cues[0].count(text) > 0 then 1 else 0) + Distinct(cues[1..], text)
  }

  function Hits(cues: seq<Cue>, text: string): nat {
    if cues == [] then 0 else cues[0].count(text) + Hits(cues[1..], text)
  }

  function Matching(cues: seq<Cue>, text: string): seq<string> {
    if cues == [] then []
    else (if cues[0].count(text) > 0 then [cues[0].name] else []) + Matching(cues[1..], text)
  }

  /** Cue `i` matches. */
  predicate Matches(cues: seq<Cue>, text: string, i: nat) {
    i < |cues| && cues[i].count(text) > 0
  }

  /** Positions of the cues that match, in the order of the cues. */
  function MatchesFrom(cues: seq<Cue>, text: string, i: nat): (r: seq<nat>)
    requires i <= |cues|
    ensures forall k | 0 <= k < |r| :: i <= r[k] < |cues| && Matches(cues, text, r[k])
    ensures forall k: nat | i <= k && Matches(cues, text, k) :: k in r
    ensures forall j, k | 0 <= j < k < |r| :: r[j] < r[k]
    decreases |cues| - i
  {
    if i == |cues| then [] else (if Matches(cues, text, i) then [i] else []) + MatchesFrom(cues, text, i + 1)
  }

  /** The names shown are those of the matching cues, in the order of the cues, and the first
      rank is how many they are. */
  lemma {:induction false} NamesAreOfMatches(cues: seq<Cue>, text: string, i: nat)
    requires i <= |cues|
    ensures var (names, at) := (Matching(cues[i..], text), MatchesFrom(cues, text, i));
      && |names| == |at| == Distinct(cues[i..], text)
      && forall k | 0 <= k < |names| :: names[k] == cues[at[k]].name
    decreases |cues| - i
  {
    if i < |cues| {
      NamesAreOfMatches(cues, text, i + 1);
      assert cues[i..][1..] == cues[i + 1..] && cues[i..][0] == cues[i];
    }
  }

  /** The second rank is the sum of the matches of all cues. */
  lemma {:induction false} HitsAddUp(a: seq<Cue>, b: seq<Cue>, text: string)
    ensures Hits(a + b, text) == Hits(a, text) + Hits(b, text)
    ensures |b| == 1 ==> Hits(b, text) == b[0].count(text)
  {
    if a == [] {
      assert a + b == b;
    } else {
      assert (a + b)[1..] == a[1..] + b;
      HitsAddUp(a[1..], b, text);
    }
  }

  function Below(n: nat): (s: set<nat>)
    ensures |s| == n && forall i: nat :: i in s <==> i < n
  {
    if n == 0 then {} else Below(n - 1) + {n - 1}
  }

  /** The passages with a match. */
  ghost function Scored(cues: seq<Cue>, passages: seq<Passage>): (s: set<nat>)
    ensures s <= Below(|passages|) && |s| <= |passages|
  {
    var s := set i | i in Below(|passages|) && Distinct(cues, passages[i].text) > 0;
    SubsetSize(s, Below(|passages|));
    s
  }

  /** More distinct cues, then more matches, then the earlier start. */
  predicate Outranks(cues: seq<Cue>, passages: seq<Passage>, i: nat, j: nat) {
    && i < |passages| && j < |passages|
    && var (p, q) := (passages[i], passages[j]);
       var (dp, dq) := (Distinct(cues, p.text), Distinct(cues, q.text));
       var (hp, hq) := (Hits(cues, p.text), Hits(cues, q.text));
       dp > dq || (dp == dq && (hp > hq || (hp == hq && (p.start < q.start || (p.start == q.start && i > j)))))
  }

  function ByScore(cues: seq<Cue>, passages: seq<Passage>): (nat, nat) -> bool {
    (i: nat, j: nat) => Outranks(cues, passages, i, j)
  }

  lemma ByScoreTotal(cues: seq<Cue>, passages: seq<Passage>, s: set<nat>)
    requires forall i | i in s :: i < |passages|
    ensures StrictTotal(ByScore(cues, passages), s)
  {
    hide Distinct, Hits;
  }

  const InOrder: (nat, nat) -> bool := (i, j) => i < j

  /** Which passages are shown: as many as asked for, the best of those with a match, and
      the lead of the document when too few have one. */
  ghost predicate Selection(cues: seq<Cue>, passages: seq<Passage>, chosen: set<nat>) {
    var scored := Scored(cues, passages);
    && chosen <= Below(|passages|)
    && |chosen| == Larger(Smaller(MAX_CANDIDATES, |scored|), Smaller(MIN_CANDIDATES, |passages|))
    && (forall i, j | i in chosen && i in scored && j in scored && j !in chosen :: Outranks(cues, passages, i, j))
    && (forall i | i in chosen && i !in scored :: scored <= chosen && |chosen| <= MIN_CANDIDATES)
    && (forall i, j: nat | i in chosen && i !in scored && j < i :: j in chosen)
  }

  function Smaller(a: nat, b: nat): nat { if a < b then a else b }

  function Larger(a: nat, b: nat): nat { if a < b then b else a }

  /** The rules leave no choice. */
  lemma SelectionUnique(cues: seq<Cue>, passages: seq<Passage>, a: set<nat>, b: set<nat>)
    requires Selection(cues, passages, a) && Selection(cues, passages, b)
    ensures a == b
  {
    hide Distinct, Hits, Below, Scored, Outranks, Selection;
    forall x, y | x in a && y in b ensures x in b || y in a {
      NoDifference(cues, passages, a, b, x, y);
    }
    assert a <= b || b <= a;
    assert |a| == |b| by { SelectionSize(cues, passages, a); SelectionSize(cues, passages, b); }
    if a <= b {
      SubsetSize(a, b);
    } else {
      SubsetSize(b, a);
    }
  }

  lemma SelectionSize(cues: seq<Cue>, passages: seq<Passage>, a: set<nat>)
    requires Selection(cues, passages, a)
    ensures |a| == Larger(Smaller(MAX_CANDIDATES, |Scored(cues, passages)|), Smaller(MIN_CANDIDATES, |passages|))
    ensures |a| <= MAX_CANDIDATES && (passages != [] ==> |a| > 0)
  {
    hide Distinct, Hits, Below, Scored, Outranks;
  }

  lemma NoDifference(cues: seq<Cue>, passages: seq<Passage>, a: set<nat>, b: set<nat>, x: nat, y: nat)
    requires Selection(cues, passages, a) && Selection(cues, passages, b) && x in a && y in b
    ensures x in b || y in a
  {
    hide Distinct, Hits, Below, Scored, Outranks;
    OnlyScored(cues, passages, a);
    OnlyScored(cues, passages, b);
    NotBoth(cues, passages, x, y);
  }

  lemma NotBoth(cues: seq<Cue>, passages: seq<Passage>, i: nat, j: nat)
    ensures !(Outranks(cues, passages, i, j) && Outranks(cues, passages, j, i))
  {
    hide Distinct, Hits;
  }

  /** A match that is not chosen has no more distinct cues than a chosen one, with as many no more
      matches, and with as many of those no earlier start; fill-ins have no match. */
  lemma ChosenAreBest(cues: seq<Cue>, passages: seq<Passage>, chosen: set<nat>, i: nat, j: nat)
    requires Selection(cues, passages, chosen) && i in chosen && j < |passages| && j !in chosen
    ensures i < |passages|
    ensures var (p, q) := (passages[i], passages[j]);
      && (Distinct(cues, q.text) > 0 ==>
            && Distinct(cues, p.text) >= Distinct(cues, q.text)
            && (Distinct(cues, p.text) == Distinct(cues, q.text) ==>
                  && Hits(cues, p.text) >= Hits(cues, q.text)
                  && (Hits(cues, p.text) == Hits(cues, q.text) ==> p.start <= q.start)))
      && (Distinct(cues, p.text) == 0 ==> i < j)
  {
    hide Distinct, Hits;
    assert j in Scored(cues, passages) ==> i in Scored(cues, passages) by { OnlyScored(cues, passages, chosen); }
  }

  /** With few matches every match is shown, with more nothing else is. */
  lemma OnlyScored(cues: seq<Cue>, passages: seq<Passage>, a: set<nat>)
    requires Selection(cues, passages, a)
    ensures var scored := Scored(cues, passages); if |scored| >= MIN_CANDIDATES then a <= scored else scored <= a
  {
    hide Distinct, Hits, Below, Outranks;
    var scored := Scored(cues, passages);
    if |scored| >= MIN_CANDIDATES {
      if x :| x in a && x !in scored {
        SubsetSize(scored + {x}, a);
      }
    } else if !(scored <= a) {
      assert a <= scored;
      SubsetSize(a, scored);
    }
  }

  /** The candidates of a set of passages, in document order. */
  ghost predicate InDocumentOrder(cues: seq<Cue>, passages: seq<Passage>, chosen: set<nat>, out: seq<Candidate>) {
    && chosen <= Below(|passages|) && |out| == |chosen|
    && exists order: seq<nat> :: OrderOf(cues, passages, chosen, order, out)
  }

  ghost predicate OrderOf(cues: seq<Cue>, passages: seq<Passage>, chosen: set<nat>, order: seq<nat>,
                          out: seq<Candidate>) {
    && Elements(order) == chosen && Ascending(InOrder, order) && |order| == |out|
    && forall k | 0 <= k < |out| :: order[k] < |passages| && out[k] == Shown(cues, passages[order[k]])
  }

  function Shown(cues: seq<Cue>, p: Passage): Candidate {
    Candidate(p.start, p.end, p.text, Matching(cues, p.text))
  }

  /** The rows of `scored` in the source: the indices of the passages with a match. */
  method Score(cues: seq<Cue>, passages: seq<Passage>) returns (scored: set<nat>)
    ensures scored == Scored(cues, passages)
  {
    hide Distinct, Scored, Below;
    scored := {};
    for i := 0 to |passages|
      invariant forall j: nat :: j in scored <==> j < i && j in Scored(cues, passages)
    {
      InScored(cues, passages, i);
      if Distinct(cues, passages[i].text) > 0 {
        scored := scored + {i};
      }
    }
    InBelow(cues, passages);
  }

  lemma InScored(cues: seq<Cue>, passages: seq<Passage>, i: nat)
    requires i < |passages|
    ensures i in Scored(cues, passages) <==> Distinct(cues, passages[i].text) > 0
  {
    hide Distinct;
  }

  lemma InBelow(cues: seq<Cue>, passages: seq<Passage>)
    ensures forall i: nat | i in Scored(cues, passages) :: i < |passages|
  {
    hide Distinct;
  }

  /** The candidates of the passages that the rules choose. */
  ghost predicate Shows(cues: seq<Cue>, passages: seq<Passage>, out: seq<Candidate>) {
    exists chosen: set<nat> :: Selection(cues, passages, chosen) && InDocumentOrder(cues, passages, chosen, out)
  }

  /** The list shown is a function of the cues and the passages. */
  lemma ShownUnique(cues: seq<Cue>, passages: seq<Passage>, a: seq<Candidate>, b: seq<Candidate>)
    requires Shows(cues, passages, a) && Shows(cues, passages, b)
    ensures a == b
  {
    hide Selection, Matching;
    var s: set<nat> :| Selection(cues, passages, s) && InDocumentOrder(cues, passages, s, a);
    var t: set<nat> :| Selection(cues, passages, t) && InDocumentOrder(cues, passages, t, b);
    SelectionUnique(cues, passages, s, t);
    var p :| OrderOf(cues, passages, s, p, a);
    var q :| OrderOf(cues, passages, s, q, b);
    assert StrictTotal(InOrder, s);
    AscendingUnique(InOrder, p, q);
  }

  method Select(cues: seq<Cue>, passages: seq<Passage>) returns (out: seq<Candidate>)
    ensures Shows(cues, passages, out)
  {
    hide Distinct, Hits, Ranking, Outranks, Matching, Elements, Selection, Scored, StrictTotal, Below, Ascending, Top;
    var scored := Score(cues, passages);
    ghost var best := RankedTop(cues, passages);
    var ranked := Ranking(ByScore(cues, passages), scored);
    var top := Elements(ranked[..Smaller(MAX_CANDIDATES, |ranked|)]);
    var picked := TopUp(|passages|, top);
    PickedIsSelection(cues, passages, top, picked);
    out := Present(cues, passages, picked);
  }

  /** The earliest passages fill the choice up to its minimum. */
  method TopUp(n: nat, top: set<nat>) returns (picked: set<nat>)
    ensures ToppedUp(n, top, picked)
  {
    hide Below;
    picked := top;
    var i := 0;
    NothingAdded(top);
    while i < n && |picked| < MIN_CANDIDATES
      invariant 0 <= i <= n && picked == top + Below(i)
      invariant if |top| >= MIN_CANDIDATES then i == 0 else |picked| <= MIN_CANDIDATES
    {
      OneAdded(top, i);
      picked := picked + {i};
      i := i + 1;
    }
    assert Filled(n, top, picked, i);
  }

  lemma NothingAdded(top: set<nat>)
    ensures top + Below(0) == top
  {
  }

  lemma OneAdded(top: set<nat>, i: nat)
    ensures top + Below(i + 1) == top + Below(i) + {i} && |top + Below(i) + {i}| <= |top + Below(i)| + 1
  {
    var s := top + Below(i);
    assert top + Below(i + 1) == s + {i};
    hide Below;
    if i in s {
      assert s + {i} == s;
    } else {
      assert |s + {i}| == |s| + 1;
    }
  }

  ghost predicate Filled(n: nat, top: set<nat>, picked: set<nat>, i: nat) {
    && i <= n && picked == top + Below(i)
    && if |top| >= MIN_CANDIDATES then i == 0
       else |picked| <= MIN_CANDIDATES && (|picked| == MIN_CANDIDATES || i == n)
  }

  ghost predicate ToppedUp(n: nat, top: set<nat>, picked: set<nat>) {
    exists i: nat :: Filled(n, top, picked, i)
  }

  lemma PickedIsSelection(cues: seq<Cue>, passages: seq<Passage>, top: set<nat>, picked: set<nat>)
    requires Top(cues, passages, top) && ToppedUp(|passages|, top, picked)
    ensures Selection(cues, passages, picked) && picked <= Below(|passages|)
  {
    hide Top, Below;
    var i: nat :| Filled(|passages|, top, picked, i);
    if |top| >= MIN_CANDIDATES {
      assert picked == top;
      EnoughMatches(cues, passages, top);
    } else {
      FewMatches(cues, passages, top, i);
    }
    hide Scored;
  }

  method Present(cues: seq<Cue>, passages: seq<Passage>, chosen: set<nat>) returns (out: seq<Candidate>)
    requires chosen <= Below(|passages|)
    ensures InDocumentOrder(cues, passages, chosen, out)
  {
    hide Matching, Ranking;
    out := [];
    assert StrictTotal(InOrder, chosen);
    var order := Ranking(InOrder, chosen);
    assert forall k | 0 <= k < |order| :: order[k] in Elements(order);
    hide Elements, StrictTotal, Ascending;
    for k := 0 to |order|
      invariant |out| == k && forall m | 0 <= m < k :: out[m] == Shown(cues, passages[order[m]])
    {
      out := out + [Shown(cues, passages[order[k]])];
    }
    assert OrderOf(cues, passages, chosen, order, out);
  }

  /** The best of the passages with a match, as many as are shown. */
  ghost predicate Top(cues: seq<Cue>, passages: seq<Passage>, top: set<nat>) {
    var scored := Scored(cues, passages);
    && top <= scored && |top| == Smaller(MAX_CANDIDATES, |scored|)
    && forall x, y | x in top && y in scored && y !in top :: Outranks(cues, passages, x, y)
  }

  lemma EnoughMatches(cues: seq<Cue>, passages: seq<Passage>, top: set<nat>)
    requires Top(cues, passages, top) && |top| >= MIN_CANDIDATES
    ensures Selection(cues, passages, top)
  {
    hide Distinct, Hits, Outranks, Below;
    var scored := Scored(cues, passages);
    assert |scored| <= |passages|;
    hide Scored;
  }

  lemma FewMatches(cues: seq<Cue>, passages: seq<Passage>, top: set<nat>, i: nat)
    requires Top(cues, passages, top) && |top| < MIN_CANDIDATES && i <= |passages|
    requires |top + Below(i)| <= MIN_CANDIDATES && (|top + Below(i)| == MIN_CANDIDATES || i == |passages|)
    ensures Selection(cues, passages, top + Below(i))
  {
    hide Distinct, Hits, Outranks;
    var scored, picked := Scored(cues, passages), top + Below(i);
    SubsetSize(top, scored);
    hide Scored;
    assert top == scored;
    PrefixOf(top, i, |passages|);
    hide Below;
  }

  lemma PrefixOf(top: set<nat>, i: nat, n: nat)
    requires top <= Below(n) && i <= n
    ensures var picked := top + Below(i);
      && picked <= Below(n) && |picked| <= n && (i == n ==> |picked| == n)
      && forall x, y: nat | x in picked && x !in top && y < x :: y in picked
  {
    var picked := top + Below(i);
    SubsetSize(picked, Below(n));
    assert i == n ==> picked == Below(n);
  }

  lemma RankedTop(cues: seq<Cue>, passages: seq<Passage>) returns (top: set<nat>)
    ensures StrictTotal(ByScore(cues, passages), Scored(cues, passages))
    ensures Top(cues, passages, top)
    ensures var ranked := Ranking(ByScore(cues, passages), Scored(cues, passages));
      top == Elements(ranked[..Smaller(MAX_CANDIDATES, |ranked|)])
  {
    hide Distinct, Hits, Outranks, Ranking;
    var scored := Scored(cues, passages);
    ByScoreTotal(cues, passages, scored);
    RankingTake(ByScore(cues, passages), scored, Smaller(MAX_CANDIDATES, |scored|));
    var ranked := Ranking(ByScore(cues, passages), scored);
    top := Elements(ranked[..Smaller(MAX_CANDIDATES, |ranked|)]);
    hide StrictTotal, Elements, Scored, Ascending;
    forall x, y | x in top && y in scored && y !in top ensures Outranks(cues, passages, x, y) {
      assert y in scored - top;
      assert ByScore(cues, passages)(x, y);
    }
  }

  /** The passages of the document a reviewer sees first. */
  method Candidates(cues: seq<Cue>, doc: string)
    returns (out: seq<Candidate>, ghost passages: seq<Passage>, ghost spans: seq<Span>, ghost cuts: seq<nat>)
    ensures Packed(doc, WINDOW_CHARS, spans, cuts, passages) && Shows(cues, passages, out)
    ensures |out| <= MAX_CANDIDATES && (passages != [] ==> out != [])
    ensures forall k | 0 <= k < |out| ::
        out[k].start < out[k].end <= |doc| && out[k].text == doc[out[k].start..out[k].end]
    ensures forall j, k | 0 <= j < k < |out| :: out[j].end < out[k].start
  {
    hide Distinct, Hits, Packed, Outranks, Selection, InDocumentOrder, Faithful;
    var all, s, c := Passages.Passages(doc, WINDOW_CHARS);
    passages, spans, cuts := all, s, c;
    out := Select(cues, all);
    ghost var chosen: set<nat> :| Selection(cues, all, chosen) && InDocumentOrder(cues, all, chosen, out);
    SelectionSize(cues, all, chosen);
    CandidatesAreVerbatim(doc, cues, spans, all, chosen, out);
  }

  lemma CandidatesAreVerbatim(doc: string, cues: seq<Cue>, spans: seq<Span>, passages: seq<Passage>,
                              chosen: set<nat>, out: seq<Candidate>)
    requires InDocumentOrder(cues, passages, chosen, out)
    requires forall k | 0 <= k < |passages| :: Faithful(doc, WINDOW_CHARS, spans, passages[k])
    requires forall j, k | 0 <= j < k < |passages| :: passages[j].end < passages[k].start
    ensures |out| == |chosen|
    ensures forall k | 0 <= k < |out| ::
        out[k].start < out[k].end <= |doc| && out[k].text == doc[out[k].start..out[k].end]
    ensures forall j, k | 0 <= j < k < |out| :: out[j].end < out[k].start
  {
    hide Distinct, Hits, Matching, HasBlankLine;
    var order :| OrderOf(cues, passages, chosen, order, out);
    forall j, k | 0 <= j < k < |out| ensures out[j].end < out[k].start {
      assert InOrder(order[j], order[k]);
    }
  }
}

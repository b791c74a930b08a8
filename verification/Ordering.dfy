/** `ORDER BY` over a finite set of rows: the unique ascending sequence under a
    strict total order, and how it decomposes when the set does. */
module Ordering {

  ghost predicate StrictTotal<T(!new)>(before: (T, T) -> bool, s: set<T>) {
    && (forall x | x in s :: !before(x, x))
    && (forall x, y | x in s && y in s && x != y :: before(x, y) || before(y, x))
    && (forall x, y, z | x in s && y in s && z in s && before(x, y) && before(y, z) :: before(x, z))
  }

  ghost predicate Ascending<T>(before: (T, T) -> bool, r: seq<T>) {
    forall i, j | 0 <= i < j < |r| :: before(r[i], r[j])
  }

  function Elements<T>(r: seq<T>): set<T> {
    set x | x in r
  }

  ghost predicate IsLeast<T>(before: (T, T) -> bool, s: set<T>, m: T) {
    m in s && forall y | y in s && y != m :: before(m, y)
  }

  lemma {:induction false} LeastExists<T(!new)>(before: (T, T) -> bool, s: set<T>)
    requires s != {} && StrictTotal(before, s)
    ensures exists m :: IsLeast(before, s, m)
  {
    var x :| x in s;
    var rest := s - {x};
    if rest == {} {
      assert s == {x};
      assert IsLeast(before, s, x);
    } else {
      LeastExists(before, rest);
      var m :| IsLeast(before, rest, m);
      if before(x, m) {
        assert IsLeast(before, s, x);
      } else {
        assert IsLeast(before, s, m);
      }
    }
  }

  function Least<T(!new, ==)>(before: (T, T) -> bool, s: set<T>): (m: T)
    requires s != {} && StrictTotal(before, s)
    ensures IsLeast(before, s, m)
  {
    LeastExists(before, s);
    var m :| m in s && forall y | y in s && y != m :: before(m, y);
    m
  }

  /** The rows of `s` in ascending order. */
  function Ranking<T(!new, ==)>(before: (T, T) -> bool, s: set<T>): (r: seq<T>)
    requires StrictTotal(before, s)
    ensures Ascending(before, r) && Elements(r) == s && |r| == |s|
  {
    if s == {} then
      EmptyAscends(before);
      []
    else
      var m := Least(before, s);
      SubsetTotal(before, s, s - {m});
      var rest := Ranking(before, s - {m});
      LeastThenRest(before, s, m, rest);
      [m] + rest
  }

  lemma EmptyAscends<T(!new)>(before: (T, T) -> bool)
    ensures Ascending(before, []) && Elements<T>([]) == {}
  {
  }

  lemma SubsetTotal<T(!new)>(before: (T, T) -> bool, s: set<T>, t: set<T>)
    requires StrictTotal(before, s) && t <= s
    ensures StrictTotal(before, t)
  {
  }

  /** The least row before the ascending others. */
  lemma LeastThenRest<T(!new)>(before: (T, T) -> bool, s: set<T>, m: T, rest: seq<T>)
    requires IsLeast(before, s, m) && Ascending(before, rest) && Elements(rest) == s - {m} && |rest| == |s - {m}|
    ensures var r := [m] + rest;
      Ascending(before, r) && Elements(r) == s && |r| == |s|
  {
    ConsElements(m, rest);
    var r := [m] + rest;
    forall i, j | 0 <= i < j < |r| ensures before(r[i], r[j]) {
      assert rest[j - 1] in Elements(rest);
    }
  }

  lemma ConsElements<T>(m: T, rest: seq<T>)
    ensures Elements([m] + rest) == {m} + Elements(rest)
  {
  }

  lemma NoElements<T>(a: seq<T>)
    ensures Elements(a) == {} <==> a == []
  {
    if a != [] {
      assert a[0] in Elements(a);
    }
  }

  lemma ConcatElements<T>(a: seq<T>, b: seq<T>)
    ensures Elements(a + b) == Elements(a) + Elements(b)
  {
  }

  lemma HeadIsLeast<T(!new)>(before: (T, T) -> bool, a: seq<T>)
    requires a != [] && Ascending(before, a)
    ensures IsLeast(before, Elements(a), a[0])
  {
  }

  lemma LeastIsUnique<T(!new)>(before: (T, T) -> bool, s: set<T>, m: T, n: T)
    requires StrictTotal(before, s) && IsLeast(before, s, m) && IsLeast(before, s, n)
    ensures m == n
  {
  }

  lemma TailElements<T(!new)>(before: (T, T) -> bool, a: seq<T>)
    requires a != [] && StrictTotal(before, Elements(a)) && Ascending(before, a)
    ensures Elements(a[1..]) == Elements(a) - {a[0]}
    ensures Ascending(before, a[1..])
    ensures StrictTotal(before, Elements(a[1..]))
  {
    assert a == [a[0]] + a[1..];
    ConsElements(a[0], a[1..]);
    assert forall i | 0 <= i < |a| - 1 :: before(a[0], a[1..][i]);
    assert !before(a[0], a[0]);
  }

  /** Two ascending sequences over the same rows are equal. */
  lemma {:induction false} AscendingUnique<T(!new)>(before: (T, T) -> bool, a: seq<T>, b: seq<T>)
    requires Elements(a) == Elements(b) && StrictTotal(before, Elements(a))
    requires Ascending(before, a) && Ascending(before, b)
    ensures a == b
  {
    if a == [] {
      NoElements(b);
    } else {
      assert a[0] in Elements(b);
      HeadIsLeast(before, a);
      HeadIsLeast(before, b);
      LeastIsUnique(before, Elements(a), a[0], b[0]);
      TailElements(before, a);
      TailElements(before, b);
      AscendingUnique(before, a[1..], b[1..]);
    }
  }

  lemma AscendingConcat<T(!new)>(before: (T, T) -> bool, a: seq<T>, b: seq<T>)
    requires Ascending(before, a) && Ascending(before, b)
    requires forall x, y | x in Elements(a) && y in Elements(b) :: before(x, y)
    ensures Ascending(before, a + b)
  {
    forall i, j | 0 <= i < j < |a + b|
      ensures before((a + b)[i], (a + b)[j])
    {
      if i < |a| && |a| <= j {
        assert a[i] in Elements(a) && b[j - |a|] in Elements(b);
      }
    }
  }

  /** A set split into a part that comes first and the rest ranks part by part. */
  lemma RankingSplits<T(!new)>(before: (T, T) -> bool, low: set<T>, high: set<T>)
    requires StrictTotal(before, low + high)
    requires forall x, y | x in low && y in high :: before(x, y)
    ensures StrictTotal(before, low) && StrictTotal(before, high)
    ensures Ranking(before, low + high) == Ranking(before, low) + Ranking(before, high)
  {
    assert StrictTotal(before, low) && StrictTotal(before, high);
    var a, b := Ranking(before, low), Ranking(before, high);
    ConcatElements(a, b);
    AscendingConcat(before, a, b);
    AscendingUnique(before, Ranking(before, low + high), a + b);
  }

  lemma RankingOfOne<T(!new)>(before: (T, T) -> bool, x: T)
    requires StrictTotal(before, {x})
    ensures Ranking(before, {x}) == [x]
  {
    hide Ranking;
    var single := Ranking(before, {x});
    assert single[0] in Elements(single);
    assert single == [single[0]];
  }

  /** A row that comes after all the others ranks last. */
  lemma RankingLast<T(!new)>(before: (T, T) -> bool, s: set<T>, last: T)
    requires StrictTotal(before, s) && last in s
    requires forall x | x in s && x != last :: before(x, last)
    ensures StrictTotal(before, s - {last})
    ensures Ranking(before, s) == Ranking(before, s - {last}) + [last]
  {
    var rest := s - {last};
    assert rest + {last} == s;
    RankingSplits(before, rest, {last});
    RankingOfOne(before, last);
    hide Ranking, StrictTotal;
  }

  /** The head of a ranking is its least row and the tail ranks the others. */
  lemma RankingFirst<T(!new)>(before: (T, T) -> bool, s: set<T>)
    requires StrictTotal(before, s) && s != {}
    ensures var r := Ranking(before, s);
      r != [] && r[0] in s && StrictTotal(before, s - {r[0]}) && r[1..] == Ranking(before, s - {r[0]})
  {
    var r := Ranking(before, s);
    NoElements(r);
    TailElements(before, r);
    AscendingUnique(before, Ranking(before, s - {r[0]}), r[1..]);
  }

  /** The first `n` rows and the remaining rows, as sets. */
  lemma RankingTake<T(!new)>(before: (T, T) -> bool, s: set<T>, n: nat)
    requires StrictTotal(before, s) && n <= |s|
    ensures var first := Elements(Ranking(before, s)[..n]);
      && first <= s && |first| == n
      && (forall x, y | x in first && y in s - first :: before(x, y))
      && StrictTotal(before, first) && StrictTotal(before, s - first)
      && Ranking(before, first) == Ranking(before, s)[..n]
      && Ranking(before, s - first) == Ranking(before, s)[n..]
  {
    var r := Ranking(before, s);
    var a, b := r[..n], r[n..];
    SplitAscending(before, r, n);
    assert Elements(b) == s - Elements(a);
    AscendingUnique(before, Ranking(before, Elements(a)), a);
    AscendingUnique(before, Ranking(before, Elements(b)), b);
    assert |Elements(a)| == |Ranking(before, Elements(a))| == n;
  }

  lemma SplitAscending<T(!new)>(before: (T, T) -> bool, r: seq<T>, n: nat)
    requires StrictTotal(before, Elements(r)) && Ascending(before, r) && n <= |r|
    ensures var a, b := Elements(r[..n]), Elements(r[n..]);
      && a + b == Elements(r) && a !! b
      && StrictTotal(before, a) && StrictTotal(before, b)
      && forall x, y | x in a && y in b :: before(x, y)
    ensures Ascending(before, r[..n]) && Ascending(before, r[n..])
  {
    assert r == r[..n] + r[n..];
    ConcatElements(r[..n], r[n..]);
    forall x, y | x in Elements(r[..n]) && y in Elements(r[n..])
      ensures before(x, y)
    {
      var i :| 0 <= i < n && r[..n][i] == x;
      var j :| 0 <= j < |r| - n && r[n..][j] == y;
      assert before(r[i], r[j + n]);
    }
    assert Elements(r[..n]) * Elements(r[n..]) == {};
  }

  /** Only the comparisons between the ranked rows matter. */
  lemma RankingAgrees<T(!new)>(before: (T, T) -> bool, other: (T, T) -> bool, s: set<T>)
    requires StrictTotal(before, s)
    requires forall x, y | x in s && y in s :: before(x, y) == other(x, y)
    ensures StrictTotal(other, s) && Ranking(before, s) == Ranking(other, s)
  {
    assert StrictTotal(other, s);
    var r := Ranking(other, s);
    assert forall x | x in r :: x in Elements(r);
    AscendingUnique(before, Ranking(before, s), r);
  }

  /** A subset has no more elements, and is the whole set when it has as many. */
  lemma SubsetSize<T>(a: set<T>, b: set<T>)
    requires a <= b
    ensures |a| <= |b| && (|a| == |b| ==> a == b)
  {
    assert b == a + (b - a);
    assert |b| == |a| + |b - a|;
  }
}

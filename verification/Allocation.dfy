/** Largest-remainder allocation of seats to strata, over exact rationals: the share of a
    stratum is its size times the seats over the number of documents, kept as a numerator. */
module Allocation {
  import opened Common
  import opened Ordering

  /** A stratum of the evaluation set: whether it is one of the first documents, and its profile. */
  datatype Stratum = Stratum(original: bool, profile: string)

  type Counts = map<Stratum, int>

  datatype SplitError = DivisionByZero | WrongSizes

  // ------------------------------------------------------------------------------ totals

  ghost function Total(m: Counts): int {
    if m == map[] then 0 else
      var k :| k in m;
      m[k] + Total(m - {k})
  }

  lemma {:induction false} TotalRemove(m: Counts, k: Stratum)
    requires k in m
    ensures Total(m) == m[k] + Total(m - {k})
    decreases |m|
  {
    var pick :| pick in m && Total(m) == m[pick] + Total(m - {pick});
    if pick != k {
      TotalRemove(m - {pick}, k);
      TotalRemove(m - {k}, pick);
      assert m - {pick} - {k} == m - {k} - {pick};
    }
  }

  lemma {:induction false} TotalAdd(a: Counts, b: Counts, c: Counts)
    requires a.Keys == b.Keys == c.Keys && forall k | k in a :: c[k] == a[k] + b[k]
    ensures Total(c) == Total(a) + Total(b)
    decreases |a|
  {
    if k :| k in a {
      TotalRemove(a, k);
      TotalRemove(b, k);
      TotalRemove(c, k);
      TotalAdd(a - {k}, b - {k}, c - {k});
    }
  }

  lemma NothingTotal(m: Counts)
    ensures m == map[] ==> Total(m) == 0
  {
  }

  function Times(x: int, y: int): int { x * y }

  lemma TimesAdds(x: int, a: int, b: int)
    ensures Times(x, a + b) == Times(x, a) + Times(x, b) && Times(x, 0) == 0
  {
  }

  lemma {:induction false} TotalScale(a: Counts, c: Counts, x: int)
    requires a.Keys == c.Keys && forall k | k in a :: c[k] == Times(x, a[k])
    ensures Total(c) == Times(x, Total(a))
    decreases |a|
  {
    hide Times, Total;
    TimesAdds(x, 0, 0);
    NothingTotal(a);
    NothingTotal(c);
    if k :| k in a {
      TotalRemove(a, k);
      TotalRemove(c, k);
      TotalScale(a - {k}, c - {k}, x);
      TimesAdds(x, a[k], Total(a - {k}));
    }
  }

  lemma {:induction false} TotalAtLeast(a: Counts, b: Counts)
    requires a.Keys == b.Keys && forall k | k in a :: a[k] <= b[k]
    ensures Total(a) <= Total(b)
    ensures (exists k :: k in a && a[k] < b[k]) ==> Total(a) < Total(b)
    decreases |a|
  {
    if j :| j in a && a[j] < b[j] {
      TotalRemove(a, j);
      TotalRemove(b, j);
      TotalAtLeast(a - {j}, b - {j});
    } else if k :| k in a {
      TotalRemove(a, k);
      TotalRemove(b, k);
      TotalAtLeast(a - {k}, b - {k});
    }
  }

  /** The total of an indicator is the size of its set. */
  lemma {:induction false} TotalOfIndicator(m: Counts, s: set<Stratum>)
    requires s <= m.Keys && forall k | k in m :: m[k] == if k in s then 1 else 0
    ensures Total(m) == |s|
    decreases |m|
  {
    if k :| k in m {
      TotalRemove(m, k);
      TotalOfIndicator(m - {k}, s - {k});
    }
  }

  // -------------------------------------------------------------------------- the method

  /** Exact arithmetic: share = Whole + Fraction / total. */
  function Whole(size: nat, seats: nat, total: nat): nat
    requires total > 0
  {
    size * seats / total
  }

  function Fraction(size: nat, seats: nat, total: nat): nat
    requires total > 0
  {
    size * seats % total
  }

  predicate TextBefore(a: string, b: string) {
    b != "" && (a == "" || a[0] < b[0] || (a[0] == b[0] && TextBefore(a[1..], b[1..])))
  }

  predicate KeyBefore(a: Stratum, b: Stratum) {
    (!a.original && b.original) || (a.original == b.original && TextBefore(a.profile, b.profile))
  }

  /** Largest fraction first; of two equal fractions the larger key. */
  function ByFraction(sizes: map<Stratum, nat>, seats: nat, total: nat): (Stratum, Stratum) -> bool
    requires total > 0
  {
    (j, k) =>
      && j in sizes && k in sizes
      && var (f, g) := (Fraction(sizes[j], seats, total), Fraction(sizes[k], seats, total));
         f > g || (f == g && KeyBefore(k, j))
  }

  lemma {:induction false} TextBeforeTotal(a: string, b: string, c: string)
    ensures !TextBefore(a, a)
    ensures TextBefore(a, b) || TextBefore(b, a) || a == b
    ensures TextBefore(a, b) && TextBefore(b, c) ==> TextBefore(a, c)
    decreases |a|
  {
    if a != "" {
      var rest := (s: string) => if s == "" then "" else s[1..];
      TextBeforeTotal(a[1..], rest(b), rest(c));
      assert b != "" && a[0] == b[0] && a[1..] == b[1..] ==> a == [a[0]] + a[1..] == b;
    }
  }

  lemma ByFractionTotal(sizes: map<Stratum, nat>, seats: nat, total: nat)
    requires total > 0
    ensures StrictTotal(ByFraction(sizes, seats, total), sizes.Keys)
  {
    hide Fraction, KeyBefore;
    KeyBeforeTotal();
  }

  lemma KeyBeforeTotal()
    ensures forall a, b :: !KeyBefore(a, a) && (KeyBefore(a, b) || KeyBefore(b, a) || a == b)
    ensures forall a, b, c :: KeyBefore(a, b) && KeyBefore(b, c) ==> KeyBefore(a, c)
  {
    hide TextBefore;
    forall a: Stratum, b: Stratum, c: Stratum
      ensures !KeyBefore(a, a) && (KeyBefore(a, b) || KeyBefore(b, a) || a == b)
      ensures KeyBefore(a, b) && KeyBefore(b, c) ==> KeyBefore(a, c)
    {
      TextBeforeTotal(a.profile, b.profile, c.profile);
    }
  }

  /** The remainder: the seats left when every stratum has the whole part of its share. */
  ghost function Wholes(sizes: map<Stratum, nat>, seats: nat, total: nat): (m: Counts)
    requires total > 0
    ensures m.Keys == sizes.Keys
  {
    map k | k in sizes :: Whole(sizes[k], seats, total)
  }

  ghost function Fractions(sizes: map<Stratum, nat>, seats: nat, total: nat): (m: Counts)
    requires total > 0
    ensures m.Keys == sizes.Keys
  {
    map k | k in sizes :: Fraction(sizes[k], seats, total)
  }

  /** The allocation: whole parts, and one more for the first of the ranked strata. */
  ghost predicate Allocated(sizes: map<Stratum, nat>, seats: nat, got: Counts, extra: set<Stratum>)
    requires Total(sizes) > 0
  {
    var total := Total(sizes);
    && got.Keys == sizes.Keys && extra <= sizes.Keys
    && |extra| == seats - Total(Wholes(sizes, seats, total))
    && (forall k | k in sizes :: got[k] == Whole(sizes[k], seats, total) + (if k in extra then 1 else 0))
    && (forall j, k | j in extra && k in sizes && k !in extra :: ByFraction(sizes, seats, total)(j, k))
  }

  /** N times the whole part, plus the fraction, is the share. */
  lemma Divide(p: nat, n: nat)
    requires n > 0
    ensures p == n * (p / n) + p % n && 0 <= p % n < n
  {
  }

  /** The fractions add up to the remainder. */
  lemma FractionsMakeRemainder(sizes: map<Stratum, nat>, seats: nat)
    requires Total(sizes) > 0
    ensures var n := Total(sizes);
      Times(n, seats - Total(Wholes(sizes, seats, n))) == Total(Fractions(sizes, seats, n))
  {
    hide Times, Wholes, Fractions, Total;
    var n := Total(sizes);
    var w, f := Wholes(sizes, seats, n), Fractions(sizes, seats, n);
    var shares: Counts := map k | k in sizes :: Times(seats, sizes[k]);
    var scaled: Counts := map k | k in sizes :: Times(n, w[k]);
    SharesSplit(sizes, seats, n);
    TotalScale(sizes, shares, seats);
    TotalScale(w, scaled, n);
    TotalAdd(scaled, f, shares);
    TimesAdds(n, seats - Total(w), Total(w));
    TimesCommutes(seats, n);
  }

  lemma TimesCommutes(x: int, y: int)
    ensures Times(x, y) == Times(y, x)
  {
  }

  lemma SharesSplit(sizes: map<Stratum, nat>, seats: nat, n: nat)
    requires n > 0
    ensures forall k | k in sizes ::
              Times(seats, sizes[k]) == Times(n, Wholes(sizes, seats, n)[k]) + Fractions(sizes, seats, n)[k]
  {
    forall k | k in sizes
      ensures Times(seats, sizes[k]) == Times(n, Whole(sizes[k], seats, n)) + Fraction(sizes[k], seats, n)
    {
      Divide(sizes[k] * seats, n);
    }
    hide Times, Whole, Fraction;
  }

  /** The fractions lie between zero and n - 1 for each stratum that has one. */
  lemma FractionsBounded(sizes: map<Stratum, nat>, seats: nat, n: nat)
    requires n > 0
    ensures 0 <= Total(Fractions(sizes, seats, n)) <= Times(n - 1, |WithFraction(sizes, seats, n)|)
  {
    var f, s := Fractions(sizes, seats, n), WithFraction(sizes, seats, n);
    var one: Counts := map k | k in sizes :: if k in s then 1 else 0;
    var bound: Counts := map k | k in sizes :: Times(n - 1, one[k]);
    var zero: Counts := map k | k in sizes :: Times(0, one[k]);
    assert forall k | k in sizes :: zero[k] <= f[k] <= bound[k];
    assert Times(0, Total(one)) == 0;
    hide Times, Fractions, WithFraction;
    TotalOfIndicator(one, s);
    TotalScale(one, bound, n - 1);
    TotalScale(one, zero, 0);
    TotalAtLeast(f, bound);
    TotalAtLeast(zero, f);
  }

  /** The remainder is never negative and smaller than the number of strata that have a
      fraction, or zero. */
  lemma RemainderFits(sizes: map<Stratum, nat>, seats: nat)
    requires Total(sizes) > 0
    ensures var n := Total(sizes);
      var r := seats - Total(Wholes(sizes, seats, n));
      0 <= r <= |sizes| && (r > 0 ==> r < |WithFraction(sizes, seats, n)|)
  {
    var n := Total(sizes);
    var s := WithFraction(sizes, seats, n);
    SubsetSize(s, sizes.Keys);
    FractionsMakeRemainder(sizes, seats);
    FractionsBounded(sizes, seats, n);
    RemainderBounds(n, seats - Total(Wholes(sizes, seats, n)), |s|);
    hide Wholes, WithFraction, Fractions, Times;
  }

  lemma RemainderBounds(n: nat, r: int, c: nat)
    requires n > 0 && 0 <= Times(n, r) <= Times(n - 1, c)
    ensures 0 <= r <= c && (r > 0 ==> r < c)
  {
    MulMonotone(n, r, -1);
    MulMonotone(n, c, r);
    assert (n - 1) * c == n * c - c;
  }

  lemma MulMonotone(n: nat, a: int, b: int)
    ensures a <= b ==> n * a <= n * b
  {
  }

  ghost function WithFraction(sizes: map<Stratum, nat>, seats: nat, total: nat): set<Stratum>
    requires total > 0
  {
    set k | k in sizes && Fraction(sizes[k], seats, total) > 0
  }

  /** sum(m.values()) */
  method Sum(m: Counts) returns (t: int)
    ensures t == Total(m)
  {
    t := 0;
    var left := m;
    while left != map[]
      invariant t + Total(left) == Total(m)
      decreases |left|
    {
      var k :| k in left;
      TotalRemove(left, k);
      t := t + left[k];
      left := left - {k};
    }
  }

  /** With strata whose sizes are all zero the division fails; with no strata there is nothing to divide. */
  method LargestRemainder(sizes: map<Stratum, nat>, seats: nat)
    returns (r: Result<Counts, SplitError>, ghost extra: set<Stratum>)
    ensures r.Err? <==> sizes != map[] && Total(sizes) == 0
    ensures r.Err? ==> r.error == DivisionByZero
    ensures sizes == map[] ==> r == Ok(map[])
    ensures r.Ok? && sizes != map[] ==> Total(sizes) > 0 && Allocated(sizes, seats, r.value, extra)
  {
    hide Whole, Wholes, ByFraction, Ranking, Total, Allocated, Elements, Ascending, StrictTotal;
    extra := {};
    TotalIsNat(sizes);
    var total := Sum(sizes);
    if sizes == map[] {
      return Ok(map[]), {};
    }
    if total == 0 {
      return Err(DivisionByZero), {};
    }
    var base: Counts := map k | k in sizes :: Whole(sizes[k], seats, total);
    var given := Sum(base);
    WholesAre(sizes, seats, total, base);
    var remainder := seats - given;
    RemainderFits(sizes, seats);
    ByFractionTotal(sizes, seats, total);
    var order := Ranking(ByFraction(sizes, seats, total), sizes.Keys);
    WinnersRankFirst(sizes, seats, remainder);
    extra := Elements(order[..remainder]);
    var got := GiveExtra(base, order[..remainder]);
    r := Ok(got);
  }

  lemma WholesAre(sizes: map<Stratum, nat>, seats: nat, total: nat, base: Counts)
    requires total > 0 && base == map k | k in sizes :: Whole(sizes[k], seats, total)
    ensures base == Wholes(sizes, seats, total)
  {
  }

  /** The first strata of the ranking are the ones that get the seats left over. */
  lemma WinnersRankFirst(sizes: map<Stratum, nat>, seats: nat, remainder: nat)
    requires Total(sizes) > 0 && remainder <= |sizes|
    requires remainder == seats - Total(Wholes(sizes, seats, Total(sizes)))
    ensures StrictTotal(ByFraction(sizes, seats, Total(sizes)), sizes.Keys)
    ensures var extra := Elements(Ranking(ByFraction(sizes, seats, Total(sizes)), sizes.Keys)[..remainder]);
      && extra <= sizes.Keys && |extra| == remainder
      && forall got: Counts
           | got == (map k | k in sizes :: Whole(sizes[k], seats, Total(sizes)) + (if k in extra then 1 else 0)) ::
           Allocated(sizes, seats, got, extra)
  {
    hide Whole, Wholes, ByFraction, Ranking, Total, Elements, Ascending, StrictTotal;
    var total := Total(sizes);
    ByFractionTotal(sizes, seats, total);
    RankingTake(ByFraction(sizes, seats, total), sizes.Keys, remainder);
    var extra := Elements(Ranking(ByFraction(sizes, seats, total), sizes.Keys)[..remainder]);
    assert forall j, k | j in extra && k in sizes && k !in extra :: k in sizes.Keys - extra;
  }

  /** for k in ...: base[k] += 1 */
  method GiveExtra(base: Counts, winners: seq<Stratum>) returns (got: Counts)
    requires Elements(winners) <= base.Keys && |Elements(winners)| == |winners|
    ensures got == map k | k in base :: base[k] + (if k in Elements(winners) then 1 else 0)
  {
    got := base;
    for i := 0 to |winners|
      invariant got == map k | k in base :: base[k] + (if k in winners[..i] then 1 else 0)
    {
      NoRepeats(winners);
      assert winners[i] in Elements(winners);
      assert winners[..i + 1] == winners[..i] + [winners[i]];
      got := got[winners[i] := got[winners[i]] + 1];
    }
    assert winners[..|winners|] == winners;
  }

  lemma {:induction false} NoRepeats<T>(s: seq<T>)
    requires |Elements(s)| == |s|
    ensures forall i, j | 0 <= i < j < |s| :: s[i] != s[j]
  {
    if s != [] {
      var init, last := s[..|s| - 1], s[|s| - 1];
      SplitLast(s);
      ElementsAtMost(init);
      NoRepeats(init);
      assert last !in Elements(init);
      assert forall i | 0 <= i < |s| - 1 :: s[i] == init[i] && init[i] in Elements(init);
    }
  }

  lemma SplitLast<T>(s: seq<T>)
    requires s != []
    ensures Elements(s) == Elements(s[..|s| - 1]) + {s[|s| - 1]}
  {
    var init, last := s[..|s| - 1], s[|s| - 1];
    assert s == init + [last];
    ConcatElements(init, [last]);
    assert Elements([last]) == {last};
  }

  lemma {:induction false} ElementsAtMost<T>(s: seq<T>)
    ensures |Elements(s)| <= |s|
  {
    if s == [] {
      NoElements(s);
    } else {
      SplitLast(s);
      ElementsAtMost(s[..|s| - 1]);
    }
  }

  lemma {:induction false} TotalIsNat(sizes: map<Stratum, nat>)
    ensures Total(sizes) >= 0
    decreases |sizes|
  {
    if k :| k in sizes {
      TotalRemove(sizes, k);
      TotalIsNat(sizes - {k});
    }
  }

  // ------------------------------------------------------------------------- its properties

  /** Exactly the requested number of seats is handed out. */
  lemma SeatsAddUp(sizes: map<Stratum, nat>, seats: nat, got: Counts, extra: set<Stratum>)
    requires Total(sizes) > 0 && Allocated(sizes, seats, got, extra)
    ensures Total(got) == seats
  {
    hide Whole, ByFraction;
    var one: Counts := map k | k in sizes :: if k in extra then 1 else 0;
    TotalOfIndicator(one, extra);
    TotalAdd(Wholes(sizes, seats, Total(sizes)), one, got);
  }

  /** A stratum whose share is whole gets exactly its share. */
  lemma ExtraHasFraction(sizes: map<Stratum, nat>, seats: nat, got: Counts, extra: set<Stratum>)
    requires Total(sizes) > 0 && Allocated(sizes, seats, got, extra)
    ensures forall k | k in extra :: Fraction(sizes[k], seats, Total(sizes)) > 0
  {
    var n := Total(sizes);
    RemainderFits(sizes, seats);
    hide Whole, Fraction;
    if k :| k in extra && Fraction(sizes[k], seats, n) == 0 {
      var s := WithFraction(sizes, seats, n);
      forall j | j in s ensures j in extra {
        assert !ByFraction(sizes, seats, n)(k, j);
      }
      SubsetSize(s, extra);
    }
  }

  /** No stratum gets more seats than it has documents when there are enough documents. */
  lemma SeatsWithinSizes(sizes: map<Stratum, nat>, seats: nat, got: Counts, extra: set<Stratum>)
    requires Total(sizes) > 0 && Allocated(sizes, seats, got, extra) && seats <= Total(sizes)
    ensures forall k | k in sizes :: 0 <= got[k] <= sizes[k]
  {
    var n := Total(sizes);
    ExtraHasFraction(sizes, seats, got, extra);
    hide ByFraction;
    forall k | k in sizes ensures 0 <= got[k] <= sizes[k] {
      ShareAtMostSize(sizes[k], seats, n);
    }
  }

  lemma ShareAtMostSize(size: nat, seats: nat, total: nat)
    requires total > 0 && seats <= total
    ensures Whole(size, seats, total) + (if Fraction(size, seats, total) > 0 then 1 else 0) <= size
  {
    var p, w := size * seats, size * seats / total;
    Divide(p, total);
    MulMonotone(size, seats, total);
    if w >= size {
      MulMonotone(total, size, w);
    }
    MulMonotone(total, w + 1, size);
    MulMonotone(total, size, w);
    assert total * w <= p <= total * size;
  }

  /** A larger stratum never gets fewer seats. */
  lemma LargerGetsNoFewer(sizes: map<Stratum, nat>, seats: nat, got: Counts, extra: set<Stratum>, j: Stratum,
                          k: Stratum)
    requires Total(sizes) > 0 && Allocated(sizes, seats, got, extra)
    requires j in sizes && k in sizes && sizes[j] > sizes[k]
    ensures got[j] >= got[k]
  {
    var n := Total(sizes);
    ExtraHasFraction(sizes, seats, got, extra);
    SharesAscend(sizes[k], sizes[j], seats, n);
    hide Whole, Fraction;
    assert k in extra && j !in extra ==> ByFraction(sizes, seats, n)(k, j);
  }

  lemma SharesAscend(a: nat, b: nat, seats: nat, n: nat)
    requires n > 0 && a < b
    ensures Whole(a, seats, n) <= Whole(b, seats, n)
    ensures Whole(a, seats, n) == Whole(b, seats, n) && Fraction(a, seats, n) > 0 ==>
              Fraction(a, seats, n) < Fraction(b, seats, n)
  {
    var (p, q) := (a * seats, b * seats);
    Divide(p, n);
    Divide(q, n);
    MulMonotone(seats, a + 1, b);
    assert seats * (a + 1) == p + seats && seats * b == q;
    MulMonotone(n, q / n + 1, p / n);
    assert n * (q / n + 1) == n * (q / n) + n;
  }

  /** |n * got - share|, the deviation of an allocation from the exact share times n. */
  function Deviation(n: int, share: int, got: int): nat {
    if n * got >= share then n * got - share else share - n * got
  }

  ghost function Deviations(sizes: map<Stratum, nat>, seats: nat, got: Counts): (m: Counts)
    requires got.Keys == sizes.Keys
    ensures m.Keys == sizes.Keys
  {
    map k | k in sizes :: Deviation(Total(sizes), sizes[k] * seats, got[k])
  }

  /** One stratum: moving away from the allocation costs at least a fixed rate per seat. */
  lemma DeviationGrows(n: nat, share: int, whole: int, f: int, extra: bool, threshold: int, other: int)
    requires n > 0 && share == Times(n, whole) + f && 0 <= f < n && 0 <= threshold <= n
    requires if extra then f >= threshold else f <= threshold
    ensures var got := whole + (if extra then 1 else 0);
      Deviation(n, share, other) >= Deviation(n, share, got) + Times(n - 2 * threshold, other - got)
  {
    var got := whole + (if extra then 1 else 0);
    var t := other - got;
    Products(n, threshold, t);
    Spread(n, whole, extra, t);
    hide Times;
  }

  /** The products of the deviation argument, each bounded by its factors. */
  lemma Products(n: nat, threshold: int, t: int)
    requires 0 <= threshold <= n
    ensures Times(n - 2 * threshold, t) == Times(n, t) - 2 * Times(threshold, t)
    ensures t >= 1 ==> Times(n, t) >= n && Times(threshold, t) >= threshold
    ensures t == 0 ==> Times(n, t) == 0 == Times(threshold, t)
    ensures t <= -1 ==> Times(n, t) <= 0 - n && Times(n, t) - Times(threshold, t) <= threshold - n
  {
    MulMonotone(n, 1, t);
    MulMonotone(n, t, -1);
    MulMonotone(threshold, 1, t);
    MulMonotone(n - threshold, t, -1);
    assert (n - 2 * threshold) * t == n * t - 2 * (threshold * t);
    assert (n - threshold) * t == n * t - threshold * t;
  }

  lemma Spread(n: nat, whole: int, extra: bool, t: int)
    ensures var got := whole + (if extra then 1 else 0);
      && n * got == Times(n, whole) + (if extra then n else 0)
      && n * (got + t) == n * got + Times(n, t)
  {
    TimesAdds(n, whole, if extra then 1 else 0);
    TimesAdds(n, whole + (if extra then 1 else 0), t);
  }

  /** Between the fractions that won a seat and those that did not. */
  lemma Threshold(sizes: map<Stratum, nat>, seats: nat, got: Counts, extra: set<Stratum>) returns (t: int)
    requires Total(sizes) > 0 && Allocated(sizes, seats, got, extra)
    ensures 0 <= t <= Total(sizes)
    ensures forall k | k in sizes ::
              if k in extra then Fraction(sizes[k], seats, Total(sizes)) >= t
              else Fraction(sizes[k], seats, Total(sizes)) <= t
  {
    var n := Total(sizes);
    hide Whole, KeyBefore;
    t := n;
    var left := extra;
    while left != {}
      invariant 0 <= t <= n && left <= extra
      invariant forall k | k in extra - left :: Fraction(sizes[k], seats, n) >= t
      invariant forall k | k in sizes && k !in extra :: Fraction(sizes[k], seats, n) <= t
      decreases |left|
    {
      var j :| j in left;
      assert forall k | k in sizes && k !in extra :: ByFraction(sizes, seats, n)(j, k);
      var f := Fraction(sizes[j], seats, n);
      t := if f < t then f else t;
      left := left - {j};
    }
  }

  /** No other way to hand out the same number of seats is closer to the exact shares. */
  lemma LeastDeviation(sizes: map<Stratum, nat>, seats: nat, got: Counts, extra: set<Stratum>, other: Counts)
    requires Total(sizes) > 0 && Allocated(sizes, seats, got, extra)
    requires other.Keys == sizes.Keys == got.Keys && Total(other) == seats
    ensures Total(Deviations(sizes, seats, got)) <= Total(Deviations(sizes, seats, other))
  {
    hide Whole, ByFraction, Fraction, Times, Allocated, Deviations, Deviation, Total;
    var n := Total(sizes);
    var t := Threshold(sizes, seats, got, extra);
    var was := Deviations(sizes, seats, got);
    SeatsAddUp(sizes, seats, got, extra);
    StrataDeviate(sizes, seats, got, extra, t, other);
    var moved: Counts := map k | k in sizes :: other[k] - got[k];
    var rated: Counts := map k | k in sizes :: Times(n - 2 * t, moved[k]);
    var bound: Counts := map k | k in sizes :: was[k] + rated[k];
    MovesCancel(got, other, moved, rated, n - 2 * t);
    TotalAdd(was, rated, bound);
    TotalAtLeast(bound, Deviations(sizes, seats, other));
  }

  /** Between allocations of one total the seats moved add up to nothing, at any rate. */
  lemma MovesCancel(got: Counts, other: Counts, moved: Counts, rated: Counts, rate: int)
    requires got.Keys == other.Keys == moved.Keys == rated.Keys && Total(got) == Total(other)
    requires forall k | k in got :: other[k] == got[k] + moved[k] && rated[k] == Times(rate, moved[k])
    ensures Total(rated) == 0
  {
    hide Times, Total;
    TotalAdd(got, moved, other);
    TotalScale(moved, rated, rate);
    TimesAdds(rate, 0, 0);
  }

  lemma StrataDeviate(sizes: map<Stratum, nat>, seats: nat, got: Counts, extra: set<Stratum>, t: int, other: Counts)
    requires Total(sizes) > 0 && Allocated(sizes, seats, got, extra) && other.Keys == sizes.Keys == got.Keys
    requires 0 <= t <= Total(sizes)
    requires forall k | k in sizes ::
               if k in extra then Fraction(sizes[k], seats, Total(sizes)) >= t
               else Fraction(sizes[k], seats, Total(sizes)) <= t
    ensures forall k | k in sizes ::
              Deviations(sizes, seats, got)[k] + Times(Total(sizes) - 2 * t, other[k] - got[k])
              <= Deviations(sizes, seats, other)[k]
  {
    hide Whole, ByFraction, Fraction, Times, Total, Deviation;
    forall k | k in sizes
      ensures Deviation(Total(sizes), sizes[k] * seats, other[k])
              >= Deviation(Total(sizes), sizes[k] * seats, got[k]) + Times(Total(sizes) - 2 * t, other[k] - got[k])
    {
      StratumDeviation(sizes[k], seats, Total(sizes), k in extra, t, other[k]);
    }
  }

  lemma StratumDeviation(size: nat, seats: nat, n: nat, extra: bool, threshold: int, other: int)
    requires n > 0 && 0 <= threshold <= n
    requires if extra then Fraction(size, seats, n) >= threshold else Fraction(size, seats, n) <= threshold
    ensures var got := Whole(size, seats, n) + (if extra then 1 else 0);
      Deviation(n, size * seats, other) >= Deviation(n, size * seats, got) + Times(n - 2 * threshold, other - got)
  {
    var share := size * seats;
    Divide(share, n);
    DeviationGrows(n, share, Whole(size, seats, n), Fraction(size, seats, n), extra, threshold, other);
    hide Deviation, Times;
  }

  /** Sizes and seats determine the allocation: ties in the fractions go to the larger key. */
  lemma AllocationUnique(sizes: map<Stratum, nat>, seats: nat, got: Counts, extra: set<Stratum>, got': Counts,
                         extra': set<Stratum>)
    requires Total(sizes) > 0 && Allocated(sizes, seats, got, extra) && Allocated(sizes, seats, got', extra')
    ensures got == got' && extra == extra'
  {
    hide Whole, Fraction, KeyBefore, Wholes;
    var before := ByFraction(sizes, seats, Total(sizes));
    ByFractionTotal(sizes, seats, Total(sizes));
    forall j, k | j in extra && k in extra' ensures j in extra' || k in extra {
      assert !(before(j, k) && before(k, j));
    }
    hide ByFraction, StrictTotal;
    assert extra <= extra' || extra' <= extra;
    assert extra' == extra + (extra' - extra) || extra == extra' + (extra - extra');
    assert got == got';
  }

  /** Of two strata of one size the one with the larger key gets no fewer seats. */
  lemma EqualSizesFavourLargerKey(sizes: map<Stratum, nat>, seats: nat, got: Counts, extra: set<Stratum>,
                                  j: Stratum, k: Stratum)
    requires Total(sizes) > 0 && Allocated(sizes, seats, got, extra)
    requires j in sizes && k in sizes && sizes[j] == sizes[k] && KeyBefore(k, j)
    ensures got[j] >= got[k]
  {
    hide Whole, Fraction, KeyBefore, Wholes;
    KeyBeforeTotal();
    assert k in extra && j !in extra ==> ByFraction(sizes, seats, Total(sizes))(k, j);
  }

  /** Texts are compared character by character; a proper prefix comes first. */
  lemma {:induction false} TextBeforeIsLexicographic(a: string, b: string)
    ensures TextBefore(a, b) <==>
            exists n: nat :: FirstDifference(a, b, n) && (n == |a| || (n < |b| && a[n] < b[n]))
  {
    if a != "" && b != "" && a[0] == b[0] {
      TextBeforeIsLexicographic(a[1..], b[1..]);
      if n: nat :| FirstDifference(a[1..], b[1..], n) && (n == |a| - 1 || (n < |b| - 1 && a[1..][n] < b[1..][n])) {
        assert a[..n + 1] == [a[0]] + a[1..][..n] && b[..n + 1] == [b[0]] + b[1..][..n];
        assert FirstDifference(a, b, n + 1);
      }
      if n: nat :| FirstDifference(a, b, n) && (n == |a| || (n < |b| && a[n] < b[n])) {
        assert n > 0;
        assert a[1..][..n - 1] == a[..n][1..] && b[1..][..n - 1] == b[..n][1..];
        assert FirstDifference(a[1..], b[1..], n - 1);
      }
    } else {
      assert a == "" && b != "" ==> FirstDifference(a, b, 0);
      assert a != "" && b != "" ==> FirstDifference(a, b, 0);
    }
  }

  /** `a` and `b` agree on their first `n` characters and differ, or end, right after. */
  predicate FirstDifference(a: string, b: string, n: nat) {
    n <= |a| && n <= |b| && a[..n] == b[..n] && a != b && (n < |a| && n < |b| ==> a[n] != b[n])
  }
}

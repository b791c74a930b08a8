/** Calibration arithmetic over exact reals: ten confidence bins, the expected calibration
    error, and the sweep of review thresholds. */
module Calibration {
  import opened Common

  datatype Point = Point(confidence: real, correct: bool)

  const BINS := 10

  /** [i/10, (i+1)/10), the last bin closed at the top. */
  predicate InBin(c: real, i: nat) {
    i as real / 10.0 <= c && (c < (i + 1) as real / 10.0 || (i == BINS - 1 && c <= (i + 1) as real / 10.0))
  }

  function Bin(pts: seq<Point>, i: nat): seq<Point> {
    if pts == [] then []
    else (if InBin(pts[0].confidence, i) then [pts[0]] else []) + Bin(pts[1..], i)
  }

  function Confidence(pts: seq<Point>): real {
    if pts == [] then 0.0 else pts[0].confidence + Confidence(pts[1..])
  }

  function Right(pts: seq<Point>): nat {
    if pts == [] then 0 else (if pts[0].correct then 1 else 0) + Right(pts[1..])
  }

  /** How far the number of right answers is from the sum of the confidences. */
  function Gap(pts: seq<Point>): real {
    Right(pts) as real - Confidence(pts)
  }

  function Abs(x: real): real {
    if x < 0.0 then -x else x
  }

  ghost predicate Confidences(pts: seq<Point>) {
    forall p | p in pts :: 0.0 <= p.confidence <= 1.0
  }

  /** Every confidence is in one bin and no other. */
  lemma OneBin(c: real) returns (i: nat)
    requires 0.0 <= c <= 1.0
    ensures i < BINS && InBin(c, i)
    ensures forall j: nat :: j < BINS && InBin(c, j) ==> j == i
  {
    i := if c == 1.0 then BINS - 1 else (c * 10.0).Floor;
    assert c < 1.0 ==> i as real <= c * 10.0 < (i + 1) as real;
  }

  /** A bin is a tenth wide, and starts at its own tenth. */
  lemma BinsAreTenths(c: real, d: real, i: nat)
    requires InBin(c, i) && InBin(d, i)
    ensures Abs(c - d) <= 0.1
    ensures i < BINS ==> InBin(i as real / 10.0, i)
  {
  }

  /** A bin holds the points whose confidence is in it, each as often as it occurs. */
  lemma {:induction false} BinIsAFilter(pts: seq<Point>, i: nat, p: Point)
    ensures multiset(Bin(pts, i))[p] == if InBin(p.confidence, i) then multiset(pts)[p] else 0
  {
    hide InBin;
    if pts != [] {
      BinIsAFilter(pts[1..], i, p);
      assert pts == [pts[0]] + pts[1..];
    }
  }

  /** The places of the right answers. */
  function RightAt(pts: seq<Point>): set<nat> {
    set i: nat | i < |pts| && pts[i].correct
  }

  /** The points end with `last`: so do the counts and the sum. */
  lemma {:induction false} CountsOfLast(pts: seq<Point>, last: Point)
    ensures Right(pts + [last]) == Right(pts) + (if last.correct then 1 else 0)
    ensures Wrong(pts + [last]) == Wrong(pts) + (if last.correct then 0 else 1)
    ensures Confidence(pts + [last]) == Confidence(pts) + last.confidence
  {
    if pts == [] {
      assert [] + [last] == [last] && [last][1..] == [];
    } else {
      assert (pts + [last])[1..] == pts[1..] + [last];
      CountsOfLast(pts[1..], last);
    }
  }

  /** Right answers are counted by their places, and all other answers are wrong. */
  lemma {:induction false} CountsAreOfPlaces(pts: seq<Point>)
    ensures Right(pts) == |RightAt(pts)| && Right(pts) + Wrong(pts) == |pts|
    decreases |pts|
  {
    if pts == [] {
      assert RightAt(pts) == {};
    } else {
      var init, last := pts[..|pts| - 1], pts[|pts| - 1];
      assert pts == init + [last];
      CountsAreOfPlaces(init);
      CountsOfLast(init, last);
      assert RightAt(pts) == RightAt(init) + (if last.correct then {|init|} else {});
    }
  }

  /** The sums over the first `k` bins. */
  ghost function BinSizes(pts: seq<Point>, k: nat): nat {
    if k == 0 then 0 else BinSizes(pts, k - 1) + |Bin(pts, k - 1)|
  }

  ghost function BinGaps(pts: seq<Point>, k: nat): real {
    if k == 0 then 0.0 else BinGaps(pts, k - 1) + Gap(Bin(pts, k - 1))
  }

  ghost function BinErrors(pts: seq<Point>, k: nat): real {
    if k == 0 then 0.0 else BinErrors(pts, k - 1) + Abs(Gap(Bin(pts, k - 1)))
  }

  lemma {:induction false} BinsOfOneMore(p: Point, rest: seq<Point>, i: nat, k: nat)
    requires i < BINS && InBin(p.confidence, i) && k <= BINS
    requires forall j: nat :: j < BINS && InBin(p.confidence, j) ==> j == i
    ensures BinSizes([p] + rest, k) == BinSizes(rest, k) + (if i < k then 1 else 0)
    ensures BinGaps([p] + rest, k) == BinGaps(rest, k) + (if i < k then Gap([p]) else 0.0)
  {
    hide Gap, Bin, InBin;
    if k > 0 {
      BinsOfOneMore(p, rest, i, k - 1);
      BinOfOneMore(p, rest, k - 1);
      GapOfOneMore(p, Bin(rest, k - 1));
    }
  }

  lemma BinOfOneMore(p: Point, rest: seq<Point>, j: nat)
    ensures Bin([p] + rest, j) == if InBin(p.confidence, j) then [p] + Bin(rest, j) else Bin(rest, j)
  {
    assert ([p] + rest)[1..] == rest && [] + Bin(rest, j) == Bin(rest, j);
  }

  lemma GapOfOneMore(p: Point, rest: seq<Point>)
    ensures Gap([p] + rest) == Gap([p]) + Gap(rest)
  {
    assert ([p] + rest)[1..] == rest && [p][1..] == [];
    assert Right([p] + rest) == (if p.correct then 1 else 0) + Right(rest);
    assert Confidence([p] + rest) == p.confidence + Confidence(rest);
    assert Right([p]) == (if p.correct then 1 else 0) + Right([]);
    assert Confidence([p]) == p.confidence + Confidence([]);
  }

  /** The ten bins partition the points. */
  lemma {:induction false} BinsPartition(pts: seq<Point>)
    requires Confidences(pts)
    ensures BinSizes(pts, BINS) == |pts| && BinGaps(pts, BINS) == Gap(pts)
  {
    if pts == [] {
      EmptyBins(BINS);
    } else {
      var i := OneBin(pts[0].confidence);
      assert pts == [pts[0]] + pts[1..];
      BinsPartition(pts[1..]);
      BinsOfOneMore(pts[0], pts[1..], i, BINS);
      GapOfOneMore(pts[0], pts[1..]);
    }
  }

  lemma {:induction false} EmptyBins(k: nat)
    ensures BinSizes([], k) == 0 && BinGaps([], k) == 0.0
  {
    if k > 0 {
      EmptyBins(k - 1);
    }
  }

  lemma {:induction false} BinConfidences(pts: seq<Point>, i: nat)
    requires Confidences(pts)
    ensures Confidences(Bin(pts, i))
  {
    if pts != [] {
      BinConfidences(pts[1..], i);
    }
  }

  lemma {:induction false} GapAtMostSize(pts: seq<Point>)
    requires Confidences(pts)
    ensures Abs(Gap(pts)) <= |pts| as real
  {
    if pts != [] {
      GapAtMostSize(pts[1..]);
    }
  }

  lemma {:induction false} ErrorsBounded(pts: seq<Point>, k: nat)
    requires Confidences(pts)
    ensures Abs(BinGaps(pts, k)) <= BinErrors(pts, k) <= BinSizes(pts, k) as real
  {
    if k > 0 {
      ErrorsBounded(pts, k - 1);
      BinConfidences(pts, k - 1);
      GapAtMostSize(Bin(pts, k - 1));
    }
  }

  function Mean(total: real, n: nat): real
    requires n > 0
  {
    total / n as real
  }

  /** The expected calibration error, bin by bin: weight times |accuracy - mean confidence|. */
  method ExpectedCalibrationError(pts: seq<Point>) returns (ece: real)
    ensures pts == [] ==> ece == 0.0
    ensures pts != [] ==> ece == Mean(BinErrors(pts, BINS), |pts|)
    ensures pts != [] && Confidences(pts) ==>
        Abs(Mean(Right(pts) as real, |pts|) - Mean(Confidence(pts), |pts|)) <= ece <= 1.0
  {
    hide Mean, InBin, Bin, Confidence, Right, BinErrors;
    ece := 0.0;
    NoErrors(pts);
    for i := 0 to BINS
      invariant if pts == [] then ece == 0.0 else ece == Mean(BinErrors(pts, i), |pts|)
    {
      var bin := Bin(pts, i);
      NextError(pts, i);
      if bin == [] {
        continue;
      }
      var mean := Mean(Confidence(bin), |bin|);
      var accuracy := Mean(Right(bin) as real, |bin|);
      ece := ece + Mean(|bin| as real, |pts|) * Abs(accuracy - mean);
    }
    if pts != [] && Confidences(pts) {
      BinsPartition(pts);
      ErrorsBounded(pts, BINS);
      BoundsOver(Right(pts) as real, Confidence(pts), BinErrors(pts, BINS), |pts|);
    }
  }

  lemma NoErrors(pts: seq<Point>)
    ensures pts != [] ==> Mean(BinErrors(pts, 0), |pts|) == 0.0
  {
  }

  /** What one bin adds to the error. */
  lemma NextError(pts: seq<Point>, i: nat)
    ensures var bin := Bin(pts, i);
      if bin == [] then pts != [] ==> Mean(BinErrors(pts, i + 1), |pts|) == Mean(BinErrors(pts, i), |pts|)
      else
        && pts != []
        && Mean(BinErrors(pts, i + 1), |pts|)
           == Mean(BinErrors(pts, i), |pts|)
              + Mean(|bin| as real, |pts|) * Abs(Mean(Right(bin) as real, |bin|) - Mean(Confidence(bin), |bin|))
  {
    var bin := Bin(pts, i);
    assert bin == [] ==> Gap(bin) == 0.0;
    assert pts == [] ==> bin == [];
    hide Mean, InBin, Bin;
    if bin != [] {
      WeightedError(|bin|, |pts|, Right(bin) as real, Confidence(bin));
      AddOver(BinErrors(pts, i), Abs(Gap(bin)), |pts|);
    }
  }

  lemma WeightedError(m: nat, n: nat, right: real, confidence: real)
    requires m > 0 && n > 0
    ensures Mean(m as real, n) * Abs(Mean(right, m) - Mean(confidence, m)) == Mean(Abs(right - confidence), n)
  {
    var d := right - confidence;
    SubtractOver(right, confidence, m);
    AbsOver(d, m);
    WeightOver(m as real, Abs(d), n as real);
  }

  lemma WeightOver(m: real, d: real, n: real)
    requires m > 0.0 && n > 0.0
    ensures (m / n) * (d / m) == d / n
  {
  }

  lemma AddOver(a: real, b: real, n: nat)
    requires n > 0
    ensures Mean(a + b, n) == Mean(a, n) + Mean(b, n)
  {
  }

  lemma SubtractOver(a: real, b: real, n: nat)
    requires n > 0
    ensures Mean(a, n) - Mean(b, n) == Mean(a - b, n)
  {
  }

  lemma AbsOver(d: real, n: nat)
    requires n > 0
    ensures Abs(Mean(d, n)) == Mean(Abs(d), n)
  {
  }

  lemma DivideMonotone(a: real, b: real, n: nat)
    requires 0.0 <= a <= b <= n as real && n > 0
    ensures 0.0 <= Mean(a, n) <= Mean(b, n) <= 1.0
  {
    DivideOrder(a, b, n as real);
  }

  lemma DivideOrder(a: real, b: real, m: real)
    requires 0.0 <= a <= b <= m && m > 0.0
    ensures 0.0 <= a / m <= b / m <= 1.0
  {
  }

  lemma BoundsOver(right: real, confidence: real, errors: real, n: nat)
    requires n > 0 && Abs(right - confidence) <= errors <= n as real
    ensures Abs(Mean(right, n) - Mean(confidence, n)) <= Mean(errors, n) <= 1.0
  {
    hide Mean;
    SubtractOver(right, confidence, n);
    AbsOver(right - confidence, n);
    DivideMonotone(Abs(right - confidence), errors, n);
  }

  // ------------------------------------------------------------------------------- sweep

  datatype SweepRow = SweepRow(routed: nat, wrong: nat, precision: Option<real>, recall: Option<real>)

  function Routed(pts: seq<Point>, threshold: real): seq<Point> {
    if pts == [] then []
    else (if pts[0].confidence < threshold then [pts[0]] else []) + Routed(pts[1..], threshold)
  }

  function Wrong(pts: seq<Point>): nat {
    if pts == [] then 0 else (if pts[0].correct then 0 else 1) + Wrong(pts[1..])
  }

  function Over(a: nat, b: nat): Option<real> {
    if b == 0 then None else Some(Mean(a as real, b))
  }

  function Sweep(pts: seq<Point>, threshold: real): SweepRow {
    var routed := Routed(pts, threshold);
    SweepRow(|routed|, Wrong(routed), Over(Wrong(routed), |routed|), Over(Wrong(routed), Wrong(pts)))
  }

  lemma WrongOneMore(p: Point, rest: seq<Point>)
    ensures Wrong([p] + rest) == (if p.correct then 0 else 1) + Wrong(rest) && [] + rest == rest
  {
    assert ([p] + rest)[1..] == rest;
  }

  /** A threshold routes the points below it, each as often as it occurs. */
  lemma {:induction false} RoutedIsAFilter(pts: seq<Point>, threshold: real, p: Point)
    ensures multiset(Routed(pts, threshold))[p] == if p.confidence < threshold then multiset(pts)[p] else 0
  {
    if pts != [] {
      RoutedIsAFilter(pts[1..], threshold, p);
      assert pts == [pts[0]] + pts[1..];
    }
  }

  /** Raising the threshold routes more, and no more than the points just admitted are wrong. */
  lemma {:induction false} RoutedGrows(pts: seq<Point>, low: real, high: real)
    requires low <= high
    ensures |Routed(pts, low)| <= |Routed(pts, high)| <= |pts|
    ensures Wrong(Routed(pts, low)) <= Wrong(Routed(pts, high)) <= Wrong(pts)
    ensures Wrong(Routed(pts, high)) - Wrong(Routed(pts, low)) <= |Routed(pts, high)| - |Routed(pts, low)|
  {
    if pts != [] {
      RoutedGrows(pts[1..], low, high);
      WrongOneMore(pts[0], Routed(pts[1..], low));
      WrongOneMore(pts[0], Routed(pts[1..], high));
    }
  }

  /** Along the sweep the routed and the wrong-routed counts and the recall never fall, recall
      is between 0 and 1, and it is defined for every threshold or for none. */
  lemma SweepIsMonotone(pts: seq<Point>, low: real, high: real)
    requires low <= high
    ensures var (a, b) := (Sweep(pts, low), Sweep(pts, high));
      && a.routed <= b.routed && a.wrong <= b.wrong
      && (a.recall == if Wrong(pts) == 0 then None else Some(Mean(a.wrong as real, Wrong(pts))))
      && (a.precision == if a.routed == 0 then None else Some(Mean(a.wrong as real, a.routed)))
      && (a.recall.Some? <==> b.recall.Some?)
      && (a.recall.Some? ==> 0.0 <= a.recall.value <= b.recall.value <= 1.0)
  {
    RoutedGrows(pts, low, high);
    if Wrong(pts) > 0 {
      DivideMonotone(Wrong(Routed(pts, low)) as real, Wrong(Routed(pts, high)) as real, Wrong(pts));
    }
  }

  /** Raising the threshold lowers the precision exactly when the points it admits are wrong
      at a lower rate than those routed already. */
  lemma PrecisionFallsExactlyWhenDiluted(pts: seq<Point>, low: real, high: real)
    requires low <= high && Routed(pts, low) != []
    ensures var (a, b) := (Sweep(pts, low), Sweep(pts, high));
      && a.routed <= b.routed && a.wrong <= b.wrong && a.precision.Some? && b.precision.Some?
      && (b.precision.value < a.precision.value <==>
          a.routed < b.routed
          && Mean((b.wrong - a.wrong) as real, b.routed - a.routed) < Mean(a.wrong as real, a.routed))
  {
    hide Mean;
    RoutedGrows(pts, low, high);
    var (a, b) := (Sweep(pts, low), Sweep(pts, high));
    if a.routed < b.routed {
      Mediant(a.wrong, a.routed, b.wrong - a.wrong, b.routed - a.routed);
    }
  }

  /** The mediant of two rates is below the first exactly when the second is. */
  lemma Mediant(p: nat, m: nat, q: nat, n: nat)
    requires m > 0 && n > 0
    ensures Mean((p + q) as real, m + n) < Mean(p as real, m) <==> Mean(q as real, n) < Mean(p as real, m)
  {
    RateBelow(p + q, m + n, p, m);
    RateBelow(q, n, p, m);
    assert (p + q) * m == p * m + q * m && p * (m + n) == p * m + p * n;
  }

  lemma RateBelow(p: nat, m: nat, q: nat, n: nat)
    requires m > 0 && n > 0
    ensures Mean(p as real, m) < Mean(q as real, n) <==> p * n < q * m
  {
    CrossMultiply(p as real, m as real, q as real, n as real);
    assert (p * n) as real == p as real * n as real && (q * m) as real == q as real * m as real;
  }

  lemma CrossMultiply(p: real, m: real, q: real, n: real)
    requires m > 0.0 && n > 0.0
    ensures p / m < q / n <==> p * n < q * m
  {
    var (x, y) := (p / m, q / n);
    assert p * n == x * (m * n) && q * m == y * (m * n) && m * n > 0.0;
  }
}

/**
 Tempo and shift normalisation of onset times.

 Times are natural numbers of microseconds.  The casts at the end of each
 formula are written out as the remainders and the cap that the program applies.
 */
module OnsetShape {

  const U16: nat := 0x1_0000
  const U64: nat := 0x1_0000_0000_0000_0000
  const U32_MAX: nat := 0xFFFF_FFFF

  function SaturatingSub(a: nat, b: nat): nat { if b <= a then a - b else 0 }

  /** Position of a time in ten-thousandths of the span that starts at `first`. */
  function RelativePosition(time: nat, first: nat, span: nat): nat
  {
    if span == 0 then 0 else SaturatingSub(time, first) * 10_000 / span % U64
  }

  function Span(onsets: seq<nat>): nat
    requires onsets != []
  {
    SaturatingSub(onsets[|onsets| - 1], onsets[0])
  }

  function NormalizedOnsetPositions(onsets: seq<nat>): seq<nat>
  {
    if onsets == [] then []
    else
      var first, span := onsets[0], Span(onsets);
      seq(|onsets|, i requires 0 <= i < |onsets| =>
        if span == 0 then 0 else SaturatingSub(onsets[i], first) * 10_000 / span % U16)
  }

  /** Differences of neighbouring onsets, saturating at zero. */
  function Intervals(onsets: seq<nat>): (r: seq<nat>)
    ensures |r| == if onsets == [] then 0 else |onsets| - 1
    ensures forall i :: 0 <= i < |r| ==> r[i] == SaturatingSub(onsets[i + 1], onsets[i])
  {
    if onsets == [] then []
    else seq(|onsets| - 1, i requires 0 <= i < |onsets| - 1 => SaturatingSub(onsets[i + 1], onsets[i]))
  }

  function Positive(s: seq<nat>): seq<nat>
  {
    if s == [] then [] else (if s[0] > 0 then [s[0]] else []) + Positive(s[1..])
  }

  predicate Sorted(s: seq<nat>) { forall i, j :: 0 <= i < j < |s| ==> s[i] <= s[j] }

  function Insert(x: nat, s: seq<nat>): seq<nat>
  {
    if s == [] then [x] else if x <= s[0] then [x] + s else [s[0]] + Insert(x, s[1..])
  }

  /** The library sort, of which only the sorted permutation matters. */
  function Sort(s: seq<nat>): seq<nat>
  {
    if s == [] then [] else Insert(s[0], Sort(s[1..]))
  }

  function Median(s: seq<nat>): nat
    requires s != []
  {
    SortPermutes(s);
    Sort(s)[|s| / 2]
  }

  function NormalizedInterOnsetRatios(onsets: seq<nat>): seq<nat>
  {
    var intervals := Intervals(onsets);
    if Positive(intervals) == [] then []
    else
      PositiveElements(intervals);
      var median := Median(Positive(intervals));
      MedianIsElement(Positive(intervals));
      seq(|intervals|, i requires 0 <= i < |intervals| => CappedRatio(intervals[i], median))
  }

  function CappedRatio(interval: nat, median: nat): nat
    requires median > 0
  {
    var q := interval * 1_000 / median;
    if q <= U32_MAX then q else U32_MAX
  }

  // ----- The sort is a sorted permutation -----

  lemma {:induction false} InsertPermutes(x: nat, s: seq<nat>)
    ensures multiset(Insert(x, s)) == multiset{x} + multiset(s)
    ensures |Insert(x, s)| == |s| + 1
  {
    if s != [] {
      assert s == [s[0]] + s[1..];
      InsertPermutes(x, s[1..]);
    }
  }

  lemma {:induction false} InsertSorts(x: nat, s: seq<nat>)
    requires Sorted(s)
    ensures Sorted(Insert(x, s))
    ensures forall y :: y in Insert(x, s) ==> y == x || y in s
  {
    if s != [] && x > s[0] {
      InsertSorts(x, s[1..]);
      var rest := Insert(x, s[1..]);
      forall i | 0 <= i < |rest|
        ensures s[0] <= rest[i]
      {
        assert rest[i] in rest;
      }
    }
  }

  lemma {:induction false} SortPermutes(s: seq<nat>)
    ensures multiset(Sort(s)) == multiset(s)
    ensures |Sort(s)| == |s|
    ensures Sorted(Sort(s))
  {
    if s != [] {
      SortPermutes(s[1..]);
      InsertPermutes(s[0], Sort(s[1..]));
      InsertSorts(s[0], Sort(s[1..]));
      assert s == [s[0]] + s[1..];
    }
  }

  lemma {:induction false} PositiveElements(s: seq<nat>)
    ensures forall x :: x in Positive(s) <==> x in s && x > 0
  {
    if s != [] {
      PositiveElements(s[1..]);
      assert s == [s[0]] + s[1..];
    }
  }

  lemma MedianIsElement(s: seq<nat>)
    requires s != []
    ensures Median(s) in s
  {
    SortPermutes(s);
    assert Sort(s)[|s| / 2] in multiset(Sort(s));
  }

  // ----- Shift and tempo invariance -----

  /** The same performance played `factor` times slower and started `shift` later. */
  function Retime(onsets: seq<nat>, factor: nat, shift: nat): (r: seq<nat>)
    ensures |r| == |onsets|
    ensures forall i :: 0 <= i < |r| ==> r[i] == onsets[i] * factor + shift
  {
    seq(|onsets|, i requires 0 <= i < |onsets| => onsets[i] * factor + shift)
  }

  function Scale(s: seq<nat>, factor: nat): (r: seq<nat>)
    ensures |r| == |s|
    ensures forall i :: 0 <= i < |r| ==> r[i] == s[i] * factor
  {
    seq(|s|, i requires 0 <= i < |s| => s[i] * factor)
  }

  lemma SaturatingSubRetimed(a: nat, b: nat, factor: nat, shift: nat)
    requires factor > 0
    ensures SaturatingSub(a * factor + shift, b * factor + shift) == SaturatingSub(a, b) * factor
  {
  }

  lemma MultiplyOrder(a: nat, b: nat, d: nat)
    ensures a <= b ==> a * d <= b * d
  {
  }

  lemma QuotientIsUnique(n: nat, d: nat, q: nat)
    requires d > 0
    requires q * d <= n < (q + 1) * d
    ensures n / d == q
  {
    var e := n / d;
    assert e * d <= n < (e + 1) * d;
    MultiplyOrder(e + 1, q, d);
    MultiplyOrder(q + 1, e, d);
  }

  lemma MultiplyStrict(a: nat, b: nat, d: nat)
    requires d > 0 && a < b
    ensures a * d < b * d
  {
    MultiplyOrder(a + 1, b, d);
  }

  lemma Reassociate(a: nat, b: nat, c: nat)
    ensures a * (b * c) == (a * b) * c
  {
  }

  lemma PositiveProduct(a: nat, b: nat)
    requires a > 0 && b > 0
    ensures a * b > 0
  {
  }

  lemma QuotientBrackets(n: nat, d: nat)
    requires d > 0
    ensures n / d * d <= n < (n / d + 1) * d
  {
  }

  /** A common positive factor cancels in a rounded-down quotient. */
  lemma QuotientScaled(n: nat, d: nat, factor: nat)
    requires d > 0 && factor > 0
    ensures d * factor > 0
    ensures (n * factor) / (d * factor) == n / d
  {
    var q := n / d;
    PositiveProduct(d, factor);
    QuotientBrackets(n, d);
    MultiplyOrder(q * d, n, factor);
    MultiplyStrict(n, (q + 1) * d, factor);
    Reassociate(q, d, factor);
    Reassociate(q + 1, d, factor);
    QuotientIsUnique(n * factor, d * factor, q);
  }

  lemma RelativePositionRetimed(time: nat, first: nat, span: nat, factor: nat, shift: nat)
    requires factor > 0
    ensures RelativePosition(time * factor + shift, first * factor + shift, span * factor)
         == RelativePosition(time, first, span)
  {
    SaturatingSubRetimed(time, first, factor, shift);
    if span > 0 {
      var d := SaturatingSub(time, first);
      QuotientScaled(d * 10_000, span, factor);
      assert d * factor * 10_000 == (d * 10_000) * factor;
    }
  }

  lemma PositionsRetimed(onsets: seq<nat>, factor: nat, shift: nat)
    requires factor > 0
    ensures NormalizedOnsetPositions(Retime(onsets, factor, shift)) == NormalizedOnsetPositions(onsets)
  {
    var retimed := Retime(onsets, factor, shift);
    if onsets != [] {
      var first, last, span := onsets[0], onsets[|onsets| - 1], Span(onsets);
      SaturatingSubRetimed(last, first, factor, shift);
      assert Span(retimed) == span * factor;
      forall i | 0 <= i < |onsets|
        ensures NormalizedOnsetPositions(retimed)[i] == NormalizedOnsetPositions(onsets)[i]
      {
        SaturatingSubRetimed(onsets[i], first, factor, shift);
        if span > 0 {
          var d := SaturatingSub(onsets[i], first);
          QuotientScaled(d * 10_000, span, factor);
          assert d * factor * 10_000 == (d * 10_000) * factor;
        }
      }
    }
  }

  lemma IntervalsRetimed(onsets: seq<nat>, factor: nat, shift: nat)
    requires factor > 0
    ensures Intervals(Retime(onsets, factor, shift)) == Scale(Intervals(onsets), factor)
  {
    forall i | 0 <= i < |Intervals(onsets)|
      ensures Intervals(Retime(onsets, factor, shift))[i] == Scale(Intervals(onsets), factor)[i]
    {
      SaturatingSubRetimed(onsets[i + 1], onsets[i], factor, shift);
    }
  }

  lemma {:induction false} PositiveScaled(s: seq<nat>, factor: nat)
    requires factor > 0
    ensures Positive(Scale(s, factor)) == Scale(Positive(s), factor)
  {
    if s != [] {
      PositiveScaled(s[1..], factor);
      assert Scale(s, factor)[1..] == Scale(s[1..], factor);
      assert s[0] * factor > 0 <==> s[0] > 0;
    }
  }

  lemma {:induction false} InsertScaled(x: nat, s: seq<nat>, factor: nat)
    requires factor > 0
    ensures Insert(x * factor, Scale(s, factor)) == Scale(Insert(x, s), factor)
  {
    if s != [] {
      assert x * factor <= s[0] * factor <==> x <= s[0] by {
        if x <= s[0] { assert x * factor <= s[0] * factor; }
        else { assert (s[0] + 1) * factor <= x * factor; }
      }
      assert Scale(s, factor)[1..] == Scale(s[1..], factor);
      InsertScaled(x, s[1..], factor);
    }
  }

  lemma {:induction false} SortScaled(s: seq<nat>, factor: nat)
    requires factor > 0
    ensures Sort(Scale(s, factor)) == Scale(Sort(s), factor)
  {
    if s != [] {
      assert Scale(s, factor)[1..] == Scale(s[1..], factor);
      SortScaled(s[1..], factor);
      InsertScaled(s[0], Sort(s[1..]), factor);
    }
  }

  lemma CappedRatioScaled(interval: nat, median: nat, factor: nat)
    requires median > 0 && factor > 0
    ensures median * factor > 0
    ensures CappedRatio(interval * factor, median * factor) == CappedRatio(interval, median)
  {
    QuotientScaled(interval * 1_000, median, factor);
    assert interval * factor * 1_000 == (interval * 1_000) * factor;
  }

  lemma MedianScaled(s: seq<nat>, factor: nat)
    requires s != [] && factor > 0
    ensures Median(Scale(s, factor)) == Median(s) * factor
  {
    SortScaled(s, factor);
    SortPermutes(s);
  }

  /** Retiming scales every interval and therefore the sorted median by the same factor. */
  lemma RatiosRetimed(onsets: seq<nat>, factor: nat, shift: nat)
    requires factor > 0
    ensures NormalizedInterOnsetRatios(Retime(onsets, factor, shift)) == NormalizedInterOnsetRatios(onsets)
  {
    var retimed := Retime(onsets, factor, shift);
    var intervals := Intervals(onsets);
    IntervalsRetimed(onsets, factor, shift);
    PositiveScaled(intervals, factor);
    var positive := Positive(intervals);
    if positive != [] {
      PositiveElements(intervals);
      MedianIsElement(positive);
      MedianScaled(positive, factor);
      var median := Median(positive);
      forall i | 0 <= i < |intervals|
        ensures NormalizedInterOnsetRatios(retimed)[i] == NormalizedInterOnsetRatios(onsets)[i]
      {
        CappedRatioScaled(intervals[i], median, factor);
      }
    }
  }

  // ----- The values themselves -----

  /** `q` is how many whole units of `d` fit into `n`. */
  predicate Rounds(n: nat, d: nat, q: nat) { q * d <= n < (q + 1) * d }

  lemma RoundsIff(n: nat, d: nat, q: nat)
    requires d > 0
    ensures Rounds(n, d, q) <==> n / d == q
  {
    if Rounds(n, d, q) { QuotientIsUnique(n, d, q); } else { QuotientBrackets(n, d); }
  }

  lemma WithinTenThousand(elapsed: nat, span: nat)
    requires span > 0 && elapsed <= span
    ensures elapsed * 10_000 / span <= 10_000
  {
    QuotientMonotone(elapsed * 10_000, span * 10_000, span);
    QuotientIsUnique(span * 10_000, span, 10_000);
  }

  /** A time inside the span is placed at the ten-thousandths of it that have elapsed, rounded down. */
  lemma PositionIsElapsedShare(time: nat, first: nat, span: nat, p: nat)
    requires span > 0 && first <= time <= first + span
    ensures RelativePosition(time, first, span) == p <==> Rounds((time - first) * 10_000, span, p)
    ensures RelativePosition(time, first, span) <= 10_000
  {
    RoundsIff((time - first) * 10_000, span, p);
    WithinTenThousand(time - first, span);
    PositionInside(time, first, span, (time - first) * 10_000 / span);
  }

  lemma PositionInside(time: nat, first: nat, span: nat, q: nat)
    requires span > 0 && first <= time && q == (time - first) * 10_000 / span <= 10_000
    ensures RelativePosition(time, first, span) == q
  {
    assert q % U64 == q;
  }

  /** Outside the span a time counts as the first, or runs on past ten thousand and wraps at 64 bits. */
  lemma PositionOutsideSpan(time: nat, first: nat, span: nat, q: nat)
    ensures time <= first || span == 0 ==> RelativePosition(time, first, span) == 0
    ensures span > 0 && first < time && Rounds((time - first) * 10_000, span, q) ==>
              RelativePosition(time, first, span) == q % 0x1_0000_0000_0000_0000
  {
    if span > 0 {
      if first < time { RoundsIff((time - first) * 10_000, span, q); } else { QuotientIsUnique(0, span, 0); }
    }
  }

  /** Each normalised position of sorted onsets is the share of the span that has elapsed, rounded down. */
  lemma OnsetPositionIsElapsedShare(onsets: seq<nat>, i: nat, p: nat)
    requires i < |onsets| && Sorted(onsets) && Span(onsets) > 0
    ensures |NormalizedOnsetPositions(onsets)| == |onsets|
    ensures NormalizedOnsetPositions(onsets)[i] == p <==> Rounds((onsets[i] - onsets[0]) * 10_000, Span(onsets), p)
  {
    var elapsed, span := onsets[i] - onsets[0], Span(onsets);
    WithinTenThousand(elapsed, span);
    PositionAt(onsets, i, elapsed * 10_000 / span);
    RoundsIff(elapsed * 10_000, span, p);
  }

  lemma PositionAt(onsets: seq<nat>, i: nat, q: nat)
    requires i < |onsets| && Sorted(onsets) && Span(onsets) > 0
    requires q == (onsets[i] - onsets[0]) * 10_000 / Span(onsets) <= 10_000
    ensures NormalizedOnsetPositions(onsets)[i] == q
  {
    assert q % U16 == q;
    assert onsets[0] <= onsets[i];
  }

  /** On any onsets a position is the elapsed share, wrapped at 16 bits, with earlier onsets counted as the first. */
  lemma OnsetPositionWraps(onsets: seq<nat>, i: nat, q: nat)
    requires i < |onsets| && Span(onsets) > 0
    requires Rounds(SaturatingSub(onsets[i], onsets[0]) * 10_000, Span(onsets), q)
    ensures |NormalizedOnsetPositions(onsets)| == |onsets| && NormalizedOnsetPositions(onsets)[i] == q % 0x1_0000
  {
    RoundsIff(SaturatingSub(onsets[i], onsets[0]) * 10_000, Span(onsets), q);
  }

  /** A ratio is the interval in thousandths of the median, rounded down and capped at 32 bits. */
  lemma RatioIsShareOfMedian(interval: nat, median: nat, q: nat)
    requires median > 0 && Rounds(interval * 1_000, median, q)
    ensures CappedRatio(interval, median) == if q <= 0xFFFF_FFFF then q else 0xFFFF_FFFF
  {
    RoundsIff(interval * 1_000, median, q);
  }

  /** How many elements are below `m`. */
  function CountBelow(s: seq<nat>, m: nat): nat
  {
    if s == [] then 0 else CountBelow(s[1..], m) + if s[0] < m then 1 else 0
  }

  lemma {:induction false} CountBelowInsert(x: nat, s: seq<nat>, m: nat)
    ensures CountBelow(Insert(x, s), m) == CountBelow(s, m) + if x < m then 1 else 0
  {
    if s != [] && x > s[0] {
      CountBelowInsert(x, s[1..], m);
    }
  }

  lemma {:induction false} CountBelowSort(s: seq<nat>, m: nat)
    ensures CountBelow(Sort(s), m) == CountBelow(s, m)
  {
    if s != [] {
      CountBelowSort(s[1..], m);
      CountBelowInsert(s[0], Sort(s[1..]), m);
    }
  }

  lemma {:induction false} CountBelowSorted(s: seq<nat>, k: nat, m: nat)
    requires Sorted(s) && k < |s|
    ensures m <= s[k] ==> CountBelow(s, m) <= k
    ensures s[k] < m ==> CountBelow(s, m) > k
  {
    if k > 0 {
      CountBelowSorted(s[1..], k - 1, m);
    } else if |s| > 1 && m <= s[0] {
      CountBelowSorted(s[1..], 0, m);
    }
  }

  /** At most `k` elements are below `m`, and more than `k` are below the next number. */
  predicate HasRank(s: seq<nat>, m: nat, k: nat) { CountBelow(s, m) <= k < CountBelow(s, m + 1) }

  lemma RankInSorted(q: seq<nat>, k: nat)
    requires Sorted(q) && k < |q|
    ensures HasRank(q, q[k], k)
  {
    CountBelowSorted(q, k, q[k]);
    CountBelowSorted(q, k, q[k] + 1);
  }

  lemma {:induction false} RankOfSort(s: seq<nat>, m: nat, k: nat)
    ensures HasRank(Sort(s), m, k) <==> HasRank(s, m, k)
  {
    CountBelowSort(s, m);
    CountBelowSort(s, m + 1);
  }

  lemma {:induction false} MedianAt(s: seq<nat>)
    requires s != []
    ensures |Sort(s)| == |s| && Sorted(Sort(s)) && Median(s) == Sort(s)[|s| / 2]
  {
    SortPermutes(s);
  }

  /** At most half of the elements are below the median, and more than half are not above it. */
  lemma MedianRank(s: seq<nat>)
    requires s != []
    ensures HasRank(s, Median(s), |s| / 2)
  {
    var k := |s| / 2;
    MedianAt(s);
    RankInSorted(Sort(s), k);
    RankOfSort(s, Median(s), k);
  }

  lemma {:induction false} CountBelowRises(s: seq<nat>, m: nat, n: nat)
    requires m <= n
    ensures CountBelow(s, m) <= CountBelow(s, n)
  {
    if s != [] { CountBelowRises(s[1..], m, n); }
  }

  /** That rank determines the median. */
  lemma MedianIsUnique(s: seq<nat>, m: nat)
    requires s != [] && HasRank(s, m, |s| / 2)
    ensures m == Median(s)
  {
    MedianRank(s);
    if m < Median(s) {
      CountBelowRises(s, m + 1, Median(s));
    } else if Median(s) < m {
      CountBelowRises(s, Median(s) + 1, m);
    }
  }

  /** The filter keeps every positive interval as often as it occurs, and nothing else. */
  lemma {:induction false} PositiveKeepsPositives(s: seq<nat>, x: nat)
    ensures multiset(Positive(s))[x] == if x > 0 then multiset(s)[x] else 0
  {
    if s != [] {
      PositiveKeepsPositives(s[1..], x);
      assert s == [s[0]] + s[1..];
    }
  }

  /** Each reported ratio compares its interval with the median of the positive ones. */
  lemma RatioOfInterval(onsets: seq<nat>, i: nat, q: nat)
    requires Positive(Intervals(onsets)) != [] && i + 1 < |onsets|
    requires Rounds(SaturatingSub(onsets[i + 1], onsets[i]) * 1_000, Median(Positive(Intervals(onsets))), q)
    ensures |NormalizedInterOnsetRatios(onsets)| == |onsets| - 1
    ensures NormalizedInterOnsetRatios(onsets)[i] == if q <= 0xFFFF_FFFF then q else 0xFFFF_FFFF
  {
    var intervals := Intervals(onsets);
    PositiveElements(intervals);
    MedianIsElement(Positive(intervals));
    RatioIsShareOfMedian(intervals[i], Median(Positive(intervals)), q);
  }

  // ----- Shape of the positions and ratios -----

  lemma QuotientMonotone(m: nat, n: nat, d: nat)
    requires d > 0 && m <= n
    ensures m / d <= n / d
  {
    var q, e := m / d, n / d;
    assert q * d <= m && n < (e + 1) * d;
    MultiplyOrder(e + 1, q, d);
  }

  lemma PositionValue(onsets: seq<nat>, i: nat)
    requires i < |onsets| && Sorted(onsets) && Span(onsets) > 0
    ensures onsets[0] <= onsets[i] && |NormalizedOnsetPositions(onsets)| == |onsets|
    ensures NormalizedOnsetPositions(onsets)[i] == (onsets[i] - onsets[0]) * 10_000 / Span(onsets)
  {
    WithinTenThousand(onsets[i] - onsets[0], Span(onsets));
    PositionAt(onsets, i, (onsets[i] - onsets[0]) * 10_000 / Span(onsets));
  }

  lemma PositionsRise(onsets: seq<nat>, i: nat, j: nat)
    requires i < j < |onsets| && Sorted(onsets) && Span(onsets) > 0
    ensures |NormalizedOnsetPositions(onsets)| == |onsets|
    ensures NormalizedOnsetPositions(onsets)[i] <= NormalizedOnsetPositions(onsets)[j]
  {
    PositionValue(onsets, i);
    PositionValue(onsets, j);
    QuotientMonotone((onsets[i] - onsets[0]) * 10_000, (onsets[j] - onsets[0]) * 10_000, Span(onsets));
  }

  /** On sorted onsets the positions rise from 0 and, for a nonzero span, end at 10000. */
  lemma PositionsRiseFromZeroToTenThousand(onsets: seq<nat>)
    requires onsets != [] && Sorted(onsets)
    ensures |NormalizedOnsetPositions(onsets)| == |onsets|
    ensures Sorted(NormalizedOnsetPositions(onsets))
    ensures NormalizedOnsetPositions(onsets)[0] == 0
    ensures NormalizedOnsetPositions(onsets)[|onsets| - 1] == if Span(onsets) == 0 then 0 else 10_000
  {
    if Span(onsets) > 0 {
      PositionValue(onsets, 0);
      PositionValue(onsets, |onsets| - 1);
      QuotientIsUnique(Span(onsets) * 10_000, Span(onsets), 10_000);
      QuotientIsUnique(0, Span(onsets), 0);
      var positions := NormalizedOnsetPositions(onsets);
      forall i, j | 0 <= i < j < |positions|
        ensures positions[i] <= positions[j]
      {
        PositionsRise(onsets, i, j);
      }
    }
  }

  lemma MedianRatio(median: nat)
    requires median > 0
    ensures CappedRatio(median, median) == 1_000
  {
    QuotientIsUnique(median * 1_000, median, 1_000);
  }

  /** The interval chosen as median is present and is reported as exactly 1000. */
  lemma MedianRatioIsOneThousand(onsets: seq<nat>)
    requires Positive(Intervals(onsets)) != []
    ensures |NormalizedInterOnsetRatios(onsets)| == |onsets| - 1
    ensures 1_000 in NormalizedInterOnsetRatios(onsets)
  {
    var intervals := Intervals(onsets);
    var ratios := NormalizedInterOnsetRatios(onsets);
    PositiveElements(intervals);
    MedianIsElement(Positive(intervals));
    var median := Median(Positive(intervals));
    MedianRatio(median);
    var k :| 0 <= k < |intervals| && intervals[k] == median;
    assert ratios[k] == CappedRatio(intervals[k], median);
  }
}

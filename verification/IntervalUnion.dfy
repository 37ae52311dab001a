/** The length of a union of half-open intervals, by a sweep over the sorted intervals. */
module IntervalUnion {
  import opened Common
  import opened Sorting

  datatype Interval = Interval(start: int, end: int)

  /** Tuples sort by their first component, then by their second. */
  predicate TupleAtMost(a: Interval, b: Interval) { a.start < b.start || (a.start == b.start && a.end <= b.end) }

  predicate Contains(start: int, end: int, t: int) { start <= t < end }

  /** The instants of one interval. */
  function Span(start: int, end: int): (s: set<int>)
    ensures forall t :: t in s <==> start <= t < end
  {
    set t: int | start <= t < end && Contains(start, end, t)
  }

  /** The instants that at least one interval covers. */
  function Covered(intervals: seq<Interval>): (s: set<int>) {
    if intervals == [] then {}
    else Covered(intervals[..|intervals| - 1]) + Span(intervals[|intervals| - 1].start, intervals[|intervals| - 1].end)
  }

  ghost predicate Forward(intervals: seq<Interval>) { forall x :: x in intervals ==> x.start <= x.end }

  function Durations(intervals: seq<Interval>): (n: int) {
    if intervals == [] then 0
    else Durations(intervals[..|intervals| - 1]) + intervals[|intervals| - 1].end - intervals[|intervals| - 1].start
  }

  lemma {:induction false} SpanSize(start: int, end: int)
    requires start <= end
    ensures |Span(start, end)| == end - start
    decreases end - start
  {
    if start == end {
      assert Span(start, end) == {};
    } else {
      SpanSize(start, end - 1);
      assert Span(start, end) == Span(start, end - 1) + {end - 1};
    }
  }

  /** An instant is covered if and only if some interval contains it. */
  lemma {:induction false} CoveredIff(intervals: seq<Interval>, t: int)
    ensures t in Covered(intervals) <==> exists x :: x in intervals && x.start <= t < x.end
  {
    if intervals != [] {
      var init, last := intervals[..|intervals| - 1], intervals[|intervals| - 1];
      CoveredIff(init, t);
      assert intervals == init + [last];
    }
  }

  lemma CoveredOrder(a: seq<Interval>, b: seq<Interval>)
    requires forall x :: x in a <==> x in b
    ensures Covered(a) == Covered(b)
  {
    forall t ensures t in Covered(a) <==> t in Covered(b) {
      CoveredIff(a, t);
      CoveredIff(b, t);
    }
  }

  lemma CoveredNext(intervals: seq<Interval>, i: nat)
    requires i < |intervals|
    ensures Covered(intervals[..i + 1]) == Covered(intervals[..i]) + Span(intervals[i].start, intervals[i].end)
  {
    assert intervals[..i + 1][..i] == intervals[..i];
  }

  /** The instants so far are `union` many before the current interval, and the current interval. */
  ghost predicate Swept(covered: set<int>, union: int, start: int, end: int) {
    && start <= end && Span(start, end) <= covered
    && |covered - Span(start, end)| == union
    && forall t :: t in covered - Span(start, end) ==> t < start
  }

  lemma Extend(covered: set<int>, union: int, start: int, end: int, next: Interval)
    requires Swept(covered, union, start, end) && start <= next.start <= end && next.start <= next.end
    ensures Swept(covered + Span(next.start, next.end), union, start, Max(end, next.end))
  {
    var longer := Span(start, Max(end, next.end));
    assert longer == Span(start, end) + Span(next.start, next.end);
    assert (covered + Span(next.start, next.end)) - longer == covered - Span(start, end);
  }

  lemma StartNew(covered: set<int>, union: int, start: int, end: int, next: Interval)
    requires Swept(covered, union, start, end) && end < next.start <= next.end
    ensures Swept(covered + Span(next.start, next.end), union + end - start, next.start, next.end)
  {
    var before := covered - Span(start, end);
    SpanSize(start, end);
    assert covered == before + Span(start, end);
    assert (covered + Span(next.start, next.end)) - Span(next.start, next.end) == covered;
  }

  lemma SweptSize(covered: set<int>, union: int, start: int, end: int)
    requires Swept(covered, union, start, end)
    ensures |covered| == union + end - start
  {
    SpanSize(start, end);
    assert covered == (covered - Span(start, end)) + Span(start, end);
  }

  lemma First(x: Interval)
    requires x.start <= x.end
    ensures Swept(Span(x.start, x.end), 0, x.start, x.end)
  {
    assert Span(x.start, x.end) - Span(x.start, x.end) == {};
  }

  lemma OrderedStarts(intervals: seq<Interval>)
    ensures var ordered := StableSort(TupleAtMost, intervals);
      && |ordered| == |intervals| && (forall x :: x in ordered <==> x in intervals)
      && forall i, j :: 0 <= i < j < |ordered| ==> ordered[i].start <= ordered[j].start
  {
    var ordered := StableSort(TupleAtMost, intervals);
    SortPermutes(TupleAtMost, intervals);
    SortSorts(TupleAtMost, intervals);
    forall i, j | 0 <= i < j < |ordered| ensures ordered[i].start <= ordered[j].start {
      assert TupleAtMost(ordered[i], ordered[j]);
    }
  }

  /** The sweep counts every covered instant once. */
  method IntervalUnionNs(intervals: seq<Interval>) returns (total: int)
    requires Forward(intervals)
    ensures total == |Covered(intervals)|
  {
    hide StableSort, Swept, Covered, Span;
    if intervals == [] {
      CoveredNone();
      return 0;
    }
    var ordered := StableSort(TupleAtMost, intervals);
    OrderedStarts(intervals);
    var union, currentStart, currentEnd := 0, ordered[0].start, ordered[0].end;
    CoveredFirst(ordered);
    First(ordered[0]);
    for i := 1 to |ordered|
      invariant Swept(Covered(ordered[..i]), union, currentStart, currentEnd)
      invariant currentStart <= ordered[i - 1].start
    {
      var next := ordered[i];
      CoveredNext(ordered, i);
      if next.start <= currentEnd {
        Extend(Covered(ordered[..i]), union, currentStart, currentEnd, next);
        currentEnd := Max(currentEnd, next.end);
      } else {
        StartNew(Covered(ordered[..i]), union, currentStart, currentEnd, next);
        union := union + currentEnd - currentStart;
        currentStart, currentEnd := next.start, next.end;
      }
    }
    assert ordered[..|ordered|] == ordered;
    CoveredOrder(ordered, intervals);
    SweptSize(Covered(ordered), union, currentStart, currentEnd);
    return union + currentEnd - currentStart;
  }

  lemma CoveredNone()
    ensures Covered([]) == {}
  {
  }

  lemma CoveredFirst(ordered: seq<Interval>)
    requires ordered != []
    ensures Covered(ordered[..1]) == Span(ordered[0].start, ordered[0].end)
  {
    CoveredNext(ordered, 0);
    assert ordered[..0] == [];
  }

  /** The union is never longer than the intervals laid end to end. */
  lemma {:induction false} AtMostDurations(intervals: seq<Interval>)
    requires Forward(intervals)
    ensures |Covered(intervals)| <= Durations(intervals)
  {
    if intervals != [] {
      var init, last := intervals[..|intervals| - 1], intervals[|intervals| - 1];
      AtMostDurations(init);
      SpanSize(last.start, last.end);
      UnionSize(Covered(init), Span(last.start, last.end));
    }
  }

  lemma UnionSize(a: set<int>, b: set<int>)
    ensures |a + b| <= |a| + |b|
  {
    assert a + b == a + (b - a);
    assert b == (b - a) + (a * b);
  }

  /** Nor longer than the stretch of time that holds them all. */
  lemma AtMostStretch(intervals: seq<Interval>, lo: int, hi: int)
    requires lo <= hi && forall x :: x in intervals ==> lo <= x.start && x.end <= hi
    ensures |Covered(intervals)| <= hi - lo
  {
    forall t | t in Covered(intervals) ensures t in Span(lo, hi) { CoveredIff(intervals, t); }
    SpanSize(lo, hi);
    SubsetSize(Covered(intervals), Span(lo, hi));
  }

  lemma SubsetSize(a: set<int>, b: set<int>)
    requires a <= b
    ensures |a| <= |b|
  {
    assert b == a + (b - a);
  }
}

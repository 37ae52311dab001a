/** The choice of a matching policy, and the duration window in front of it. */
module Correlator {
  import opened Common
  import opened Events
  import opened Sorting
  import Exact
  import FirstAfter
  import Grouping
  import Lifecycle
  import Nearest
  import StackNested
  import StreamOrder
  import Timeline

  datatype Policy = ExactThread | ExactNvtx | ExactCorrelation | FirstAfterPolicy | NearestPolicy
                  | StackNestedPolicy | StreamOrderPolicy

  /** The pairs of a policy without a sample limit. */
  function PolicyPairs(policy: Policy, starts: seq<Event>, ends: seq<Event>): (r: seq<Pair>) {
    match policy
    case ExactThread => Lifecycle.LifecyclePairs(ThreadKey, starts, ends)
    case ExactNvtx => Lifecycle.LifecyclePairs(CorrelationKey, starts, ends)
    case ExactCorrelation => Exact.ExactPairs(starts, ends)
    case FirstAfterPolicy => FirstAfter.Pairs(starts, ends)
    case NearestPolicy => Nearest.NearestPairs(starts, ends)
    case StackNestedPolicy => StackNested.StackPairs(starts, ends)
    case StreamOrderPolicy => StreamOrder.StreamPairs(starts, ends)
  }

  /** The pairs under a sample limit: the first by start, but for stack nesting the first by end. */
  function LimitedPairs(policy: Policy, starts: seq<Event>, ends: seq<Event>, limit: Option<nat>): (r: seq<Pair>) {
    if policy.StackNestedPolicy? then StableSort(ByStart, Limited(StackNested.StackEmitted(starts, ends), limit))
    else Limited(PolicyPairs(policy, starts, ends), limit)
  }

  /** What the lifecycle policies count on the merged timeline. */
  ghost predicate LifecycleCounts(key: Grouping.KeyOf, starts: seq<Event>, ends: seq<Event>, o: Outcome) {
    var items := Timeline.Merged(Timeline.BySequence, starts, ends);
    && o.ambiguous == |Lifecycle.Superseding(key, items)| && o.unmatchedEnd == |Lifecycle.Strays(key, items)|
    && o.unmatchedStart == |Lifecycle.Keyless(key, items)| + |Lifecycle.OpenKeys(key, items)|
  }

  /** The three counts of each policy.  First-after and nearest stop counting at the sample limit. */
  ghost predicate Counted(policy: Policy, starts: seq<Event>, ends: seq<Event>, limit: Option<nat>, o: Outcome) {
    var n := |PolicyPairs(policy, starts, ends)|;
    match policy
    case ExactThread => LifecycleCounts(ThreadKey, starts, ends, o)
    case ExactNvtx => LifecycleCounts(CorrelationKey, starts, ends, o)
    case ExactCorrelation =>
      && n + o.unmatchedStart + Exact.Held(starts, ends, starts) == |starts|
      && n + o.unmatchedEnd + Exact.Held(starts, ends, ends) == |ends|
      && o.ambiguous == Exact.Larger(starts, ends, Grouping.OrderedKeys(CorrelationKey, starts))
    case FirstAfterPolicy =>
      && o.ambiguous == 0 && (FirstAfter.Reached(starts, ends, limit) ==> o.unmatchedStart == 0)
      && (!FirstAfter.Reached(starts, ends, limit) ==>
            |o.pairs| + o.unmatchedStart == |starts| && |o.pairs| + o.unmatchedEnd == |ends|)
    case NearestPolicy =>
      && o.ambiguous == 0
      && if Nearest.Reached(starts, ends, limit) then o.unmatchedStart == o.unmatchedEnd == 0
         else |o.pairs| + o.unmatchedStart == |starts| && |o.pairs| + o.unmatchedEnd == |ends|
    case _ => o.ambiguous == 0 && n + o.unmatchedStart == |starts| && n + o.unmatchedEnd == |ends|
  }

  method CorrelateSelected(policy: Policy, starts: seq<Event>, ends: seq<Event>, limit: Option<nat>) returns (o: Outcome)
    ensures o.pairs == LimitedPairs(policy, starts, ends, limit)
    ensures limit.None? || |PolicyPairs(policy, starts, ends)| <= limit.value
            ==> o.pairs == PolicyPairs(policy, starts, ends)
    ensures limit.Some? ==> |o.pairs| == Min(limit.value, |PolicyPairs(policy, starts, ends)|)
    ensures !policy.StackNestedPolicy? ==> o.pairs <= PolicyPairs(policy, starts, ends)
    ensures Counted(policy, starts, ends, limit, o)
  {
    match policy
    case ExactThread => o := Lifecycle.Correlate(ThreadKey, starts, ends, limit);
    case ExactNvtx => o := Lifecycle.Correlate(CorrelationKey, starts, ends, limit);
    case ExactCorrelation => o := Exact.Correlate(starts, ends, limit);
    case FirstAfterPolicy => o := FirstAfter.Correlate(starts, ends, limit);
    case NearestPolicy => o := Nearest.Correlate(starts, ends, limit);
    case StackNestedPolicy =>
      o := StackNested.Correlate(starts, ends, limit);
      SortPermutes(ByStart, StackNested.StackEmitted(starts, ends));
      SortPermutes(ByStart, Limited(StackNested.StackEmitted(starts, ends), limit));
    case StreamOrderPolicy => o := StreamOrder.Correlate(starts, ends, limit);
  }

  method Retain(events: seq<Event>, t: nat) returns (r: seq<Event>)
    ensures r == Filter(Within(t), events)
  {
    r := [];
    for i := 0 to |events|
      invariant r == Filter(Within(t), events[..i])
    {
      assert events[..i + 1] == events[..i] + [events[i]];
      FilterConcat(Within(t), events[..i], [events[i]]);
      if events[i].timestampNs <= t { r := r + [events[i]]; }
    }
    assert events[..|events|] == events;
  }

  /** `kept` is the front of `events` that is no more than the duration later than any event. */
  ghost predicate CutAt(events: seq<Event>, all: seq<Event>, duration: nat, kept: seq<Event>) {
    && kept <= events
    && forall i :: 0 <= i < |events| ==>
         (i < |kept| <==> forall e :: e in all ==> events[i].timestampNs <= e.timestampNs + duration)
  }

  lemma WindowCuts(starts: seq<Event>, ends: seq<Event>, duration: nat)
    requires Sorted(ByTime, starts) && Sorted(ByTime, ends)
    ensures var w := WindowOf(starts, ends, Some(duration));
      && (w.Until? ==> CutAt(starts, starts + ends, duration, Filter(Within(w.t), starts))
                       && CutAt(ends, starts + ends, duration, Filter(Within(w.t), ends)))
      && (w.Everything? ==> CutAt(starts, starts + ends, duration, starts) && CutAt(ends, starts + ends, duration, ends))
  {
    hide Filter, Sorted, WindowOf;
    if starts == [] && ends == [] {
      assert WindowOf(starts, ends, Some(duration)) == Everything by { NoWindow(duration); }
    } else {
      WindowMeans(starts, ends, duration);
      var w := WindowOf(starts, ends, Some(duration));
      if w.Until? {
        CutUntil(starts, starts + ends, duration, w.t);
        CutUntil(ends, starts + ends, duration, w.t);
      }
    }
  }

  lemma NoWindow(duration: nat)
    ensures WindowOf([], [], Some(duration)) == Everything
  {
  }

  lemma CutUntil(events: seq<Event>, all: seq<Event>, duration: nat, t: nat)
    requires Sorted(ByTime, events)
    requires exists e :: e in all && t == e.timestampNs + duration
    requires forall e :: e in all ==> t <= e.timestampNs + duration
    ensures CutAt(events, all, duration, Filter(Within(t), events))
  {
    hide Filter, Sorted;
    var n := WindowIsPrefix(events, t);
  }

  datatype Windowed = Ok(starts: seq<Event>, ends: seq<Event>) | Err(error: WindowError)

  method ApplyDurationWindow(starts: seq<Event>, ends: seq<Event>, duration: Option<nat>) returns (r: Windowed)
    ensures WindowOf(starts, ends, duration).Invalid? <==> r.Err?
    ensures r.Err? ==> r.error == WindowOf(starts, ends, duration).error
    ensures WindowOf(starts, ends, duration).Everything? ==> r == Ok(starts, ends)
    ensures WindowOf(starts, ends, duration).Until? ==>
              var t := WindowOf(starts, ends, duration).t;
              r == Ok(Filter(Within(t), starts), Filter(Within(t), ends))
    ensures Sorted(ByTime, starts) && Sorted(ByTime, ends) && duration.Some? && r.Ok? ==>
              CutAt(starts, starts + ends, duration.value, r.starts)
              && CutAt(ends, starts + ends, duration.value, r.ends)
  {
    hide Filter;
    if Sorted(ByTime, starts) && Sorted(ByTime, ends) && duration.Some? { WindowCuts(starts, ends, duration.value); }
    if duration.None? { return Ok(starts, ends); }
    var first: nat;
    if starts != [] && ends != [] {
      first := Min(starts[0].timestampNs, ends[0].timestampNs);
    } else if starts != [] {
      first := starts[0].timestampNs;
    } else if ends != [] {
      first := ends[0].timestampNs;
    } else {
      return Ok(starts, ends);
    }
    if duration.value >= U64 { return Err(DurationTooLong); }
    if first + duration.value >= U64 { return Err(WindowOverflows); }
    var s := Retain(starts, first + duration.value);
    var e := Retain(ends, first + duration.value);
    r := Ok(s, e);
  }

  /** For five of the seven policies, measuring inside a window gives exactly the pairs of the whole
      capture that end inside it, in the same order. */
  lemma WindowCommutes(policy: Policy, starts: seq<Event>, ends: seq<Event>, t: nat)
    requires Sorted(ByTime, starts) && Sorted(ByTime, ends)
    requires !policy.ExactCorrelation? && !policy.NearestPolicy?
    ensures PolicyPairs(policy, Filter(Within(t), starts), Filter(Within(t), ends))
            == Filter(EndsWithin(t), PolicyPairs(policy, starts, ends))
  {
    hide Filter;
    match policy
    case ExactThread => Lifecycle.LifecycleWindow(ThreadKey, starts, ends, t);
    case ExactNvtx => Lifecycle.LifecycleWindow(CorrelationKey, starts, ends, t);
    case FirstAfterPolicy => FirstAfter.WindowCommutes(starts, ends, t);
    case StackNestedPolicy => StackNested.StackWindow(starts, ends, t);
    case StreamOrderPolicy => StreamOrder.StreamWindow(starts, ends, t);
  }
}

/** What each matching policy promises of its pairs, in terms of the events' fields. */
module PolicyLaws {
  import opened Common
  import opened Events
  import opened Sorting
  import opened Correlator
  import Exact
  import FirstAfter
  import Grouping
  import Lifecycle
  import Nearest
  import StackNested
  import StreamOrder
  import Timeline

  /** What a policy requires two events to share. */
  predicate MayJoin(policy: Policy, a: Event, b: Event) {
    match policy
    case ExactThread => a.pid == b.pid && a.tid == b.tid && a.processStart == b.processStart
    case ExactNvtx => OfOneActivity(a, b)
    case ExactCorrelation => OfOneActivity(a, b)
    case StackNestedPolicy => a.pid == b.pid && a.tid == b.tid
    case StreamOrderPolicy => OnOneStream(a, b)
    case _ => true
  }

  /** The pair joins two of the given events that may be joined, and tells the time between them; only the nearest
      policy pairs an end with a later start. */
  ghost predicate Lawful(policy: Policy, starts: seq<Event>, ends: seq<Event>, p: Pair) {
    && p.start in starts && p.end in ends && MayJoin(policy, p.start, p.end)
    && if p.start.timestampNs <= p.end.timestampNs then p.latencyNs == p.end.timestampNs - p.start.timestampNs
       else policy.NearestPolicy? && p.latencyNs == p.start.timestampNs - p.end.timestampNs
  }

  lemma OpenersPointToStarts()
    ensures Timeline.OpensStarts(Lifecycle.LastStart()) && Timeline.OpensStarts(StackNested.Top())
  {
    forall lane: seq<Timeline.Item> | StackNested.Top()(lane).Some?
      ensures StackNested.Top()(lane).value < |lane| && !lane[StackNested.Top()(lane).value].isEnd
    {
      assert lane[..|lane|] == lane;
      StackNested.OpenRise(lane, |lane|, |StackNested.Open(lane)| - 1);
    }
  }

  lemma {:induction false} FirstAfterLawful(starts: seq<Event>, ends: seq<Event>, p: Pair)
    requires p in FirstAfter.Pairs(starts, ends)
    ensures Lawful(FirstAfterPolicy, starts, ends, p)
    decreases |starts| + |ends|
  {
    if ends[0].timestampNs < starts[0].timestampNs {
      FirstAfterLawful(starts, ends[1..], p);
    } else if p != Matched(starts[0], ends[0]) {
      FirstAfterLawful(starts[1..], ends[1..], p);
    }
  }

  lemma {:induction false} ZipLawful(starts: seq<Event>, ends: seq<Event>, p: Pair)
    requires |starts| == |ends| && p in Exact.ZipPairs(starts, ends)
    ensures p.start.timestampNs <= p.end.timestampNs && p.latencyNs == p.end.timestampNs - p.start.timestampNs
  {
    if starts[0].timestampNs > ends[0].timestampNs || p != Matched(starts[0], ends[0]) {
      ZipLawful(starts[1..], ends[1..], p);
    }
  }

  /** Every pair of a grouped policy is one of a group. */
  lemma {:induction false} FromGroup(f: Grouping.Pairing, key: Grouping.KeyOf, keys: seq<Key>,
                                     starts: seq<Event>, ends: seq<Event>, p: Pair) returns (s: seq<Event>, e: seq<Event>)
    requires p in Grouping.ByGroup(f, key, keys, starts, ends)
    ensures p in f(s, e)
  {
    s, e := Grouping.Group(key, keys[0], starts), Grouping.Group(key, keys[0], ends);
    if p !in f(s, e) { s, e := FromGroup(f, key, keys[1..], starts, ends, p); }
  }

  lemma FromGrouped(f: Grouping.Pairing, key: Grouping.KeyOf, starts: seq<Event>, ends: seq<Event>, p: Pair)
    returns (s: seq<Event>, e: seq<Event>)
    requires p in Grouping.Grouped(f, key, starts, ends)
    ensures p in f(s, e)
  {
    hide StableSort;
    var keys := Grouping.OrderedKeys(key, starts);
    SortPermutes(ByStart, Grouping.ByGroup(f, key, keys, starts, ends));
    s, e := FromGroup(f, key, keys, starts, ends, p);
  }

  lemma ExactLawful(starts: seq<Event>, ends: seq<Event>, p: Pair)
    requires p in Exact.ExactPairs(starts, ends)
    ensures Lawful(ExactCorrelation, starts, ends, p)
  {
    hide Grouping.Grouped, CorrelationKey;
    Exact.OneCorrelation(starts, ends, p);
    SameCorrelation(p.start, p.end);
    var s, e := FromGrouped(Exact.Zipped, CorrelationKey, starts, ends, p);
    ZipLawful(s, e, p);
  }

  lemma StreamLawful(starts: seq<Event>, ends: seq<Event>, p: Pair)
    requires p in StreamOrder.StreamPairs(starts, ends)
    ensures Lawful(StreamOrderPolicy, starts, ends, p)
  {
    hide Grouping.Grouped, StreamKey;
    StreamOrder.OneStream(starts, ends, p);
    SameStream(p.start, p.end);
    var s, e := FromGrouped(FirstAfter.Pairs, StreamKey, starts, ends, p);
    FirstAfterLawful(s, e, p);
  }

  lemma {:induction false} NearestLawful(starts: seq<Event>, ends: seq<Event>, p: Pair)
    requires p in Nearest.NearestPairs(starts, ends)
    ensures Lawful(NearestPolicy, starts, ends, p)
  {
    hide Nearest.Best, Nearest.IsBest;
    var b := Nearest.Best(ends, starts[0].timestampNs);
    if p != Nearest.Reach(starts[0], ends[b]) {
      NearestLawful(starts[1..], Nearest.Without(ends, b), p);
      assert forall e :: e in Nearest.Without(ends, b) ==> e in ends;
    }
  }

  lemma LifecycleLawful(key: Grouping.KeyOf, starts: seq<Event>, ends: seq<Event>, p: Pair)
    requires p in Lifecycle.LifecyclePairs(key, starts, ends)
    ensures p.start in starts && p.end in ends && key(p.start).Some? && key(p.start) == key(p.end)
    ensures p.start.timestampNs <= p.end.timestampNs && p.latencyNs == p.end.timestampNs - p.start.timestampNs
  {
    hide Timeline.Pairs, Timeline.OpensStarts;
    OpenersPointToStarts();
    Timeline.BothTemporal();
    Timeline.PairsJoin(Lifecycle.LastStart(), key, Timeline.BySequence, starts, ends, p);
  }

  lemma StackLawful(starts: seq<Event>, ends: seq<Event>, p: Pair)
    requires p in StackNested.StackPairs(starts, ends)
    ensures Lawful(StackNestedPolicy, starts, ends, p)
  {
    hide Timeline.Pairs, Timeline.OpensStarts, StackKey;
    OpenersPointToStarts();
    Timeline.BothTemporal();
    Timeline.PairsJoin(StackNested.Top(), StackKey, Timeline.ByBoundary, starts, ends, p);
    SameStack(p.start, p.end);
  }

  /** Every pair of every policy joins two given events that share what the policy requires, and its latency is
      the time between them. */
  lemma PairsLawful(policy: Policy, starts: seq<Event>, ends: seq<Event>, p: Pair)
    requires p in PolicyPairs(policy, starts, ends)
    ensures Lawful(policy, starts, ends, p)
  {
    match policy
    case ExactThread =>
      LifecycleLawful(ThreadKey, starts, ends, p);
      SameThread(p.start, p.end);
    case ExactNvtx =>
      LifecycleLawful(CorrelationKey, starts, ends, p);
      SameCorrelation(p.start, p.end);
    case ExactCorrelation => ExactLawful(starts, ends, p);
    case FirstAfterPolicy => FirstAfterLawful(starts, ends, p);
    case NearestPolicy => NearestLawful(starts, ends, p);
    case StackNestedPolicy => StackLawful(starts, ends, p);
    case StreamOrderPolicy => StreamLawful(starts, ends, p);
  }

  /** For starts in time order the pairs come in the order of their starts. */
  lemma PairsByStart(policy: Policy, starts: seq<Event>, ends: seq<Event>, i: nat, j: nat)
    requires Sorted(ByTime, starts) && i < j < |PolicyPairs(policy, starts, ends)|
    ensures PolicyPairs(policy, starts, ends)[i].start.timestampNs <= PolicyPairs(policy, starts, ends)[j].start.timestampNs
  {
    hide StableSort, Grouping.ByGroup, Timeline.Emitted, FirstAfter.Pairs, Nearest.NearestPairs;
    Grouping.ByStartPreorder();
    var pairs := PolicyPairs(policy, starts, ends);
    match policy
    case FirstAfterPolicy => FirstAfter.SortedByStart(starts, ends);
    case NearestPolicy =>
      Nearest.StartsInOrder(starts, ends, i);
      Nearest.StartsInOrder(starts, ends, j);
      assert ByTime(starts[i], starts[j]);
    case ExactCorrelation => SortSorts(ByStart, Grouping.ByGroup(Exact.Zipped, CorrelationKey, Grouping.OrderedKeys(CorrelationKey, starts), starts, ends));
    case StreamOrderPolicy => SortSorts(ByStart, Grouping.ByGroup(FirstAfter.Pairs, StreamKey, Grouping.OrderedKeys(StreamKey, starts), starts, ends));
    case ExactThread => TimelineByStart(Lifecycle.LastStart(), ThreadKey, Timeline.BySequence, starts, ends);
    case ExactNvtx => TimelineByStart(Lifecycle.LastStart(), CorrelationKey, Timeline.BySequence, starts, ends);
    case StackNestedPolicy => TimelineByStart(StackNested.Top(), StackKey, Timeline.ByBoundary, starts, ends);
    assert policy != NearestPolicy ==> ByStart(pairs[i], pairs[j]);
  }

  lemma TimelineByStart(open: Timeline.Opener, key: Grouping.KeyOf, le: Timeline.Order, starts: seq<Event>, ends: seq<Event>)
    ensures Sorted(ByStart, Timeline.Pairs(open, key, le, starts, ends))
  {
    hide StableSort, Timeline.Emitted, Sorted;
    Grouping.ByStartPreorder();
    SortSorts(ByStart, Timeline.Emitted(open, key, Timeline.Merged(le, starts, ends)));
  }

  // Boundary cases

  /** A call and a return at the same instant form a pair of latency zero, under every policy that pairs by thread. */
  lemma SameInstant(call: Event, ret: Event)
    requires call.pid == ret.pid && call.tid == ret.tid && call.processStart == ret.processStart
    requires call.timestampNs == ret.timestampNs
    ensures StackNested.StackPairs([call], [ret]) == [Pair(call, ret, 0)]
    ensures Lifecycle.LifecyclePairs(ThreadKey, [call], [ret]) == [Pair(call, ret, 0)]
  {
    SameStack(call, ret);
    SameThread(call, ret);
    InstantOrder(call, ret);
    OpensFirst(Timeline.Item(false, call));
    hide *;
    InstantSorted(StackNested.Top(), StackKey, Timeline.ByBoundary, call, ret);
    InstantSorted(Lifecycle.LastStart(), ThreadKey, Timeline.BySequence, call, ret);
    InstantPolicies(call, ret);
  }

  lemma InstantPolicies(call: Event, ret: Event)
    ensures StackNested.StackPairs([call], [ret]) == Timeline.Pairs(StackNested.Top(), StackKey, Timeline.ByBoundary, [call], [ret])
    ensures Lifecycle.LifecyclePairs(ThreadKey, [call], [ret])
            == Timeline.Pairs(Lifecycle.LastStart(), ThreadKey, Timeline.BySequence, [call], [ret])
  {
    hide Timeline.Pairs;
  }

  lemma InstantOrder(call: Event, ret: Event)
    requires call.timestampNs == ret.timestampNs
    ensures Timeline.ByBoundary(Timeline.Item(false, call), Timeline.Item(true, ret))
    ensures Timeline.BySequence(Timeline.Item(false, call), Timeline.Item(true, ret))
  {
  }

  /** Both openers point to a lone start. */
  lemma OpensFirst(x: Timeline.Item)
    requires !x.isEnd
    ensures StackNested.Top()([x]) == Some(0) && Lifecycle.LastStart()([x]) == Some(0)
  {
    assert [x][..0] == [] && StackNested.Open([]) == [];
    assert StackNested.Open([x]) == [0];
  }

  lemma InstantSorted(open: Timeline.Opener, key: Grouping.KeyOf, le: Timeline.Order, call: Event, ret: Event)
    requires key(call).Some? && key(call) == key(ret) && call.timestampNs == ret.timestampNs
    requires open([Timeline.Item(false, call)]) == Some(0) && le(Timeline.Item(false, call), Timeline.Item(true, ret))
    ensures Timeline.Pairs(open, key, le, [call], [ret]) == [Pair(call, ret, 0)]
  {
    hide Timeline.Merged, Timeline.Emitted;
    InstantTimeline(le, call, ret);
    InstantPairs(open, key, call, ret);
    SortIdentity(ByStart, [Pair(call, ret, 0)]);
  }

  lemma InstantTimeline(le: Timeline.Order, call: Event, ret: Event)
    requires le(Timeline.Item(false, call), Timeline.Item(true, ret))
    ensures Timeline.Merged(le, [call], [ret]) == [Timeline.Item(false, call), Timeline.Item(true, ret)]
  {
    var a, b := Timeline.Item(false, call), Timeline.Item(true, ret);
    assert Map(Timeline.AsStart(), [call]) + Map(Timeline.AsEnd(), [ret]) == [a, b];
    assert [a, b][1..] == [b] && [b][1..] == [];
    assert StableSort(le, [b]) == [b];
  }

  lemma InstantPairs(open: Timeline.Opener, key: Grouping.KeyOf, call: Event, ret: Event)
    requires key(call).Some? && key(call) == key(ret) && call.timestampNs == ret.timestampNs
    requires open([Timeline.Item(false, call)]) == Some(0)
    ensures Timeline.Emitted(open, key, [Timeline.Item(false, call), Timeline.Item(true, ret)]) == [Pair(call, ret, 0)]
  {
    var a, b := Timeline.Item(false, call), Timeline.Item(true, ret);
    var k := key(call).value;
    Timeline.EmittedSnoc(open, key, [], a);
    Timeline.EmittedSnoc(open, key, [a], b);
    assert [] + [a] == [a] && [a] + [b] == [a, b];
    FilterOne(Timeline.ItemHasKey(key, k), a);
    assert Timeline.Lane(key, k, [a]) == [a];
    assert Timeline.More(open, key, [], a) == [];
    assert Timeline.More(open, key, [a], b) == [Matched(call, ret)];
  }

  /** What it means for the nearest policy to prefer one end to another. */
  lemma PreferenceMeans(s: nat, x: nat, y: nat)
    ensures var dx, dy := (if x <= s then s - x else x - s), (if y <= s then s - y else y - s);
      Nearest.Preferred(s, x, y) <==> dx < dy || (dx == dy && y <= x)
  {
  }
}

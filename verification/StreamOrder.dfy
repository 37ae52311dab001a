/** The stream-order policy: first-after inside each CUDA stream. */
module StreamOrder {
  import opened Common
  import opened Events
  import opened Grouping
  import opened Sorting
  import FirstAfter

  function StreamPairs(starts: seq<Event>, ends: seq<Event>): (r: seq<Pair>) {
    Grouped(FirstAfter.Pairs, StreamKey, starts, ends)
  }

  lemma FirstAfterPairs()
    ensures Pairs(FirstAfter.Pairs)
  {
    hide Sorted, FirstAfter.Pairs;
    forall s: seq<Event>, e: seq<Event> | s == [] || e == [] ensures FirstAfter.Pairs(s, e) == [] {
      FirstAfter.NoneToPair(s, e);
    }
    forall s: seq<Event>, e: seq<Event> | Sorted(ByTime, s) ensures Sorted(ByStart, FirstAfter.Pairs(s, e)) {
      FirstAfter.SortedByStart(s, e);
    }
    forall s: seq<Event>, e: seq<Event>, p | p in FirstAfter.Pairs(s, e) ensures p.start in s && p.end in e {
      FirstAfter.Members(s, e, p);
    }
  }

  /** Seen through one stream, the outcome is first-after on that stream's events alone. */
  lemma ThroughStream(starts: seq<Event>, ends: seq<Event>, k: Key)
    requires Sorted(ByTime, starts)
    ensures Filter(PairHasKey(StreamKey, k), StreamPairs(starts, ends))
            == FirstAfter.Pairs(Group(StreamKey, k, starts), Group(StreamKey, k, ends))
  {
    FirstAfterPairs();
    ThroughKey(FirstAfter.Pairs, StreamKey, k, starts, ends);
  }

  /** No pair joins two streams, and none involves an event whose stream is unknown. */
  lemma OneStream(starts: seq<Event>, ends: seq<Event>, p: Pair)
    requires p in StreamPairs(starts, ends)
    ensures p.start in starts && p.end in ends && StreamKey(p.start).Some? && StreamKey(p.start) == StreamKey(p.end)
  {
    FirstAfterPairs();
    Members(FirstAfter.Pairs, StreamKey, starts, ends, p);
  }

  /** No event is in two pairs. */
  lemma EventsUsedOnce(starts: seq<Event>, ends: seq<Event>)
    ensures UsesOnce(StreamPairs(starts, ends), starts, ends)
  {
    FirstAfterPairs();
    forall s: seq<Event>, e: seq<Event> ensures UsesOnce(FirstAfter.Pairs(s, e), s, e) {
      FirstAfter.PairsUseOnce(s, e);
    }
    GroupedUsesOnce(FirstAfter.Pairs, StreamKey, starts, ends);
  }

  /** Cutting the inputs at a duration window keeps exactly the pairs that end inside it. */
  lemma StreamWindow(starts: seq<Event>, ends: seq<Event>, t: nat)
    requires Sorted(ByTime, starts) && Sorted(ByTime, ends)
    ensures StreamPairs(Filter(Within(t), starts), Filter(Within(t), ends))
            == Filter(EndsWithin(t), StreamPairs(starts, ends))
  {
    FirstAfterPairs();
    forall s: seq<Event>, e: seq<Event> | Sorted(ByTime, s) && Sorted(ByTime, e)
      ensures FirstAfter.Pairs(Filter(Within(t), s), Filter(Within(t), e))
              == Filter(EndsWithin(t), FirstAfter.Pairs(s, e))
    {
      FirstAfter.WindowCommutes(s, e, t);
    }
    WindowCommutes(FirstAfter.Pairs, StreamKey, starts, ends, t);
  }

  /** The streams in `keys` have been walked, giving `pairs` and the two counts. */
  ghost predicate Walked(starts: seq<Event>, ends: seq<Event>, keys: seq<Key>, pairs: seq<Pair>,
                         unmatchedStart: nat, unmatchedEnd: nat)
  {
    && pairs == ByGroup(FirstAfter.Pairs, StreamKey, keys, starts, ends)
    && |pairs| + unmatchedStart == Covered(StreamKey, Set(keys), starts)
    && |pairs| + unmatchedEnd == Covered(StreamKey, Set(keys), ends)
  }

  lemma WalkNext(starts: seq<Event>, ends: seq<Event>, keys: seq<Key>, k: Key, pairs: seq<Pair>, us: nat, ue: nat,
                 more: seq<Pair>, moreUs: nat, moreUe: nat)
    requires Walked(starts, ends, keys, pairs, us, ue) && k !in keys
    requires more == FirstAfter.Pairs(Group(StreamKey, k, starts), Group(StreamKey, k, ends))
    requires |more| + moreUs == |Group(StreamKey, k, starts)| && |more| + moreUe == |Group(StreamKey, k, ends)|
    ensures Walked(starts, ends, keys + [k], pairs + more, us + moreUs, ue + moreUe)
  {
    hide Covered, Group, ByGroup, FirstAfter.Pairs, StreamKey;
    ByGroupSnoc(FirstAfter.Pairs, StreamKey, keys, k, starts, ends);
    assert Set(keys + [k]) == Set(keys) + {k};
    CoverMore(StreamKey, Set(keys), k, starts);
    CoverMore(StreamKey, Set(keys), k, ends);
  }

  lemma WalkNone(starts: seq<Event>, ends: seq<Event>, noStream: nat, noStreamEnd: nat)
    requires noStream == Covered(StreamKey, {}, starts) && noStreamEnd == Covered(StreamKey, {}, ends)
    ensures Walked(starts, ends, [], [], noStream, noStreamEnd)
  {
    NoKeys();
  }

  method WalkStreams(starts: seq<Event>, ends: seq<Event>, startKeys: seq<Key>, startGroups: map<Key, seq<Event>>,
                     endGroups: map<Key, seq<Event>>, noStream: nat, noStreamEnd: nat)
    returns (pairs: seq<Pair>, unmatchedStart: nat, unmatchedEnd: nat, left: map<Key, seq<Event>>)
    requires Distinct(startKeys) && (forall k :: k in startGroups <==> k in startKeys)
    requires forall k :: k in startGroups ==> startGroups[k] == Group(StreamKey, k, starts)
    requires forall k :: k in endGroups ==> endGroups[k] == Group(StreamKey, k, ends)
    requires forall k :: k !in endGroups ==> Group(StreamKey, k, ends) == []
    requires noStream == Covered(StreamKey, {}, starts) && noStreamEnd == Covered(StreamKey, {}, ends)
    ensures Walked(starts, ends, startKeys, pairs, unmatchedStart, unmatchedEnd)
    ensures left == endGroups - Set(startKeys)
  {
    hide Walked, Covered, Group, ByGroup, StreamKey, Set, FirstAfter.Pairs;
    pairs, unmatchedStart, unmatchedEnd, left := [], noStream, noStreamEnd, endGroups;
    WalkNone(starts, ends, noStream, noStreamEnd);
    NoKeys();
    assert endGroups - Set([]) == endGroups;
    for i := 0 to |startKeys|
      invariant Walked(starts, ends, startKeys[..i], pairs, unmatchedStart, unmatchedEnd)
      invariant left == endGroups - Set(startKeys[..i])
    {
      var k := startKeys[i];
      var group := startGroups[k];
      assert startKeys[..i + 1] == startKeys[..i] + [k];
      InRest(endGroups, startKeys[..i], k);
      RestOf(endGroups, startKeys[..i], k);
      if k !in left {
        FirstAfter.NoneToPair(group, []);
        WalkNext(starts, ends, startKeys[..i], k, pairs, unmatchedStart, unmatchedEnd, [], |group|, 0);
        assert pairs + [] == pairs;
        unmatchedStart := unmatchedStart + |group|;
      } else {
        var endGroup := left[k];
        left := left - {k};
        var more, us, ue := FirstAfter.PairStream(group, endGroup);
        WalkNext(starts, ends, startKeys[..i], k, pairs, unmatchedStart, unmatchedEnd, more, us, ue);
        pairs, unmatchedStart, unmatchedEnd := pairs + more, unmatchedStart + us, unmatchedEnd + ue;
      }
    }
    assert startKeys[..|startKeys|] == startKeys;
  }

  method Correlate(starts: seq<Event>, ends: seq<Event>, limit: Option<nat>) returns (o: Outcome)
    ensures o.pairs == Limited(StreamPairs(starts, ends), limit)
    ensures |StreamPairs(starts, ends)| + o.unmatchedStart == |starts|
    ensures |StreamPairs(starts, ends)| + o.unmatchedEnd == |ends|
    ensures o.ambiguous == 0
  {
    var startKeys, startGroups, noStream := GroupBy(starts, StreamKey);
    var endKeys, endGroups, noStreamEnd := GroupBy(ends, StreamKey);
    OrderedKeysExact(StreamKey, starts);
    OrderedKeysExact(StreamKey, ends);
    forall k | k !in endGroups ensures Group(StreamKey, k, ends) == [] { EmptyGroup(StreamKey, k, ends); }
    var pairs, unmatchedStart, unmatchedEnd, left :=
      WalkStreams(starts, ends, startKeys, startGroups, endGroups, noStream, noStreamEnd);
    var rest := LeftOver(StreamKey, endKeys, left, ends, Set(startKeys));
    CoverKeys(StreamKey, Set(startKeys), starts);
    SortPermutes(ByStart, pairs);
    pairs := StableSort(ByStart, pairs);
    o := Outcome(Limited(pairs, limit), unmatchedStart, unmatchedEnd + rest, 0);
  }
}

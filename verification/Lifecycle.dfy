/** The exact policy for syscalls and garbage collections (keyed by thread) and for NVTX ranges
    (keyed by range): an end closes the start that directly precedes it under its key.
 */
module Lifecycle {
  import opened Common
  import opened Events
  import opened Grouping
  import opened Sorting
  import opened Timeline

  /** An end closes the last item of its lane, if that is a start. */
  function LastStart(): Opener {
    (lane: seq<Item>) => if lane != [] && !lane[|lane| - 1].isEnd then Some(|lane| - 1) else None
  }

  function LifecyclePairs(key: KeyOf, starts: seq<Event>, ends: seq<Event>): (r: seq<Pair>) {
    Timeline.Pairs(LastStart(), key, BySequence, starts, ends)
  }

  /** Every start that is directly followed by an end, with that end. */
  ghost function Adjacent(lane: seq<Item>): (r: seq<Pair>)
    requires Sorted(NotLater, lane)
  {
    if |lane| < 2 then []
    else (if !lane[0].isEnd && lane[1].isEnd then [Matched(lane[0].event, lane[1].event)] else [])
         + Adjacent(lane[1..])
  }

  lemma CloseTail(lane: seq<Item>, x: Item)
    requires |lane| > 1
    ensures Close(LastStart(), lane, x) == Close(LastStart(), lane[1..], x)
  {
  }

  lemma AdjacentOne(x: Item)
    ensures Sorted(NotLater, []) && Sorted(NotLater, [x])
    ensures Adjacent([x]) == Adjacent([]) + Close(LastStart(), [], x)
  {
  }

  lemma AdjacentTwo(a: Item, x: Item)
    requires Sorted(NotLater, [a, x]) && Sorted(NotLater, [a])
    ensures Adjacent([a, x]) == Adjacent([a]) + Close(LastStart(), [a], x)
  {
    assert [a, x][1..] == [x];
    assert NotLater([a, x][0], [a, x][1]);
  }

  lemma {:induction false} AdjacentSnoc(lane: seq<Item>, x: Item)
    requires Sorted(NotLater, lane + [x]) && Sorted(NotLater, lane)
    ensures Adjacent(lane + [x]) == Adjacent(lane) + Close(LastStart(), lane, x)
  {
    hide *;
    if |lane| == 0 {
      assert lane == [] && lane + [x] == [x];
      AdjacentOne(x);
    } else if |lane| == 1 {
      assert lane == [lane[0]] && lane + [x] == [lane[0], x];
      AdjacentTwo(lane[0], x);
    } else {
      SortedParts(lane + [x], 1);
      SortedParts(lane, 1);
      CloseTail(lane, x);
      assert (lane + [x])[1..] == lane[1..] + [x];
      AdjacentStep(lane + [x]);
      AdjacentStep(lane);
      AdjacentSnoc(lane[1..], x);
    }
  }

  lemma AdjacentStep(lane: seq<Item>)
    requires Sorted(NotLater, lane) && |lane| >= 2
    ensures Sorted(NotLater, lane[1..])
    ensures lane[0].event.timestampNs <= lane[1].event.timestampNs
    ensures Adjacent(lane)
            == (if !lane[0].isEnd && lane[1].isEnd then [Matched(lane[0].event, lane[1].event)] else [])
               + Adjacent(lane[1..])
  {
    assert NotLater(lane[0], lane[1]);
  }

  lemma {:induction false} AloneIsAdjacent(lane: seq<Item>)
    requires Sorted(NotLater, lane)
    ensures Alone(LastStart(), lane) == Adjacent(lane)
  {
    if lane != [] {
      var init, x := lane[..|lane| - 1], lane[|lane| - 1];
      assert lane == init + [x];
      AloneIsAdjacent(init);
      AdjacentSnoc(init, x);
    }
  }

  lemma {:induction false} AdjacentByStart(lane: seq<Item>)
    requires Sorted(NotLater, lane)
    ensures Sorted(ByStart, Adjacent(lane))
    ensures forall p :: p in Adjacent(lane) ==> lane[0].event.timestampNs <= p.start.timestampNs
  {
    if |lane| >= 2 { AdjacentByStart(lane[1..]); }
  }

  /** Seen through one key, the outcome is every start of that key that is directly followed by an end. */
  lemma PairsAreAdjacent(key: KeyOf, k: Key, starts: seq<Event>, ends: seq<Event>)
    ensures Sorted(NotLater, Lane(key, k, Merged(BySequence, starts, ends)))
    ensures Filter(PairHasKey(key, k), LifecyclePairs(key, starts, ends))
            == Adjacent(Lane(key, k, Merged(BySequence, starts, ends)))
  {
    var items := Merged(BySequence, starts, ends);
    BothTemporal();
    MergedCounts(BySequence, starts, ends);
    FilterSorted(NotLater, ItemHasKey(key, k), items);
    var lane := Lane(key, k, items);
    Timeline.ThroughKey(LastStart(), key, BySequence, k, starts, ends);
    AloneIsAdjacent(lane);
    AdjacentByStart(lane);
    SortIdentity(ByStart, Adjacent(lane));
  }

  /** Cutting the inputs at a duration window keeps exactly the pairs that end inside it. */
  lemma LifecycleWindow(key: KeyOf, starts: seq<Event>, ends: seq<Event>, t: nat)
    ensures LifecyclePairs(key, Filter(Within(t), starts), Filter(Within(t), ends))
            == Filter(EndsWithin(t), LifecyclePairs(key, starts, ends))
  {
    BothTemporal();
    Timeline.WindowCommutes(LastStart(), key, BySequence, starts, ends, t);
  }

  // The replay

  /** `pending` holds, for a key, the start that its next end would close. */
  ghost predicate PendingIn(pending: map<Key, Event>, k: Key, lane: seq<Item>) {
    && (k in pending <==> LastStart()(lane).Some?)
    && (k in pending ==> pending[k] == lane[|lane| - 1].event)
  }

  ghost predicate Pending(pending: map<Key, Event>, key: KeyOf, items: seq<Item>) {
    forall k :: PendingIn(pending, k, Lane(key, k, items))
  }

  lemma PendingNext(pending: map<Key, Event>, key: KeyOf, items: seq<Item>, x: Item)
    requires Pending(pending, key, items)
    ensures key(x.event).None? ==> Pending(pending, key, items + [x])
    ensures key(x.event).Some? && !x.isEnd ==> Pending(pending[key(x.event).value := x.event], key, items + [x])
    ensures key(x.event).Some? && x.isEnd ==> Pending(pending - {key(x.event).value}, key, items + [x])
  {
    hide Lane;
    forall k ensures var lane := Lane(key, k, items + [x]);
      && (key(x.event).None? ==> PendingIn(pending, k, lane))
      && (key(x.event).Some? && !x.isEnd ==> PendingIn(pending[key(x.event).value := x.event], k, lane))
      && (key(x.event).Some? && x.isEnd ==> PendingIn(pending - {key(x.event).value}, k, lane))
    {
      LaneSnoc(key, k, items, x);
      assert PendingIn(pending, k, Lane(key, k, items));
    }
  }

  /** A pending start is in the timeline, so it is not later than any item still to come. */
  lemma PendingEarlier(pending: map<Key, Event>, key: KeyOf, items: seq<Item>, x: Item, k: Key)
    requires Sorted(NotLater, items + [x]) && Pending(pending, key, items) && k in pending
    ensures pending[k].timestampNs <= x.event.timestampNs
  {
    var lane := Lane(key, k, items);
    assert PendingIn(pending, k, lane);
    FilterMember(ItemHasKey(key, k), items, lane[|lane| - 1]);
    var j :| 0 <= j < |items| && items[j] == lane[|lane| - 1];
    assert NotLater((items + [x])[j], (items + [x])[|items|]);
  }

  lemma MoreIsPending(pending: map<Key, Event>, key: KeyOf, items: seq<Item>, x: Item)
    requires Sorted(NotLater, items + [x]) && Pending(pending, key, items)
    ensures key(x.event).Some? && key(x.event).value in pending
            ==> pending[key(x.event).value].timestampNs <= x.event.timestampNs
    ensures More(LastStart(), key, items, x) ==
            if key(x.event).Some? && x.isEnd && key(x.event).value in pending
            then [Pair(pending[key(x.event).value], x.event, x.event.timestampNs - pending[key(x.event).value].timestampNs)]
            else []
  {
    if key(x.event).Some? {
      var k := key(x.event).value;
      assert PendingIn(pending, k, Lane(key, k, items));
      if k in pending { PendingEarlier(pending, key, items, x, k); }
    }
  }

  // What is left over

  /** The positions of the starts that directly follow a start of their key. */
  ghost function Superseding(key: KeyOf, items: seq<Item>): (r: set<nat>) {
    set j: nat | j < |items| && !items[j].isEnd && AfterStart(key, items, j)
  }

  /** The positions of the ends that do not directly follow a start of their key. */
  ghost function Strays(key: KeyOf, items: seq<Item>): (r: set<nat>) {
    set j: nat | j < |items| && items[j].isEnd && !AfterStart(key, items, j)
  }

  /** The positions of the starts without a key. */
  ghost function Keyless(key: KeyOf, items: seq<Item>): (r: set<nat>) {
    set j: nat | j < |items| && !items[j].isEnd && key(items[j].event).None?
  }

  /** The keys whose last item is a start. */
  ghost function OpenKeys(key: KeyOf, items: seq<Item>): (r: set<Key>) {
    set j: nat | j < |items| && !items[j].isEnd && key(items[j].event).Some?
                 && LastWith(key, key(items[j].event).value, items, j) :: key(items[j].event).value
  }

  lemma OneMorePosition(a: set<nat>, b: set<nat>, n: nat, added: bool)
    requires n !in a && b == (if added then a + {n} else a)
    ensures |b| == |a| + if added then 1 else 0
  {
  }

  /** Whether the next item follows a start is what `pending` tells. */
  lemma AfterStartIff(pending: map<Key, Event>, key: KeyOf, items: seq<Item>, x: Item)
    requires Pending(pending, key, items)
    ensures AfterStart(key, items + [x], |items|) <==> key(x.event).Some? && key(x.event).value in pending
  {
    hide Lane;
    var all := items + [x];
    assert all[..|items|] == items;
    if key(x.event).Some? {
      var k := key(x.event).value;
      assert PendingIn(pending, k, Lane(key, k, items));
      var i := LaneEnd(key, k, items);
      if Lane(key, k, items) != [] {
        assert Precedes(key, all, i, |items|);
        assert forall m: nat :: Precedes(key, all, m, |items|) ==> m == i;
      }
    }
  }

  lemma AfterStartStays(key: KeyOf, items: seq<Item>, x: Item, j: nat)
    requires j < |items|
    ensures AfterStart(key, items + [x], j) <==> AfterStart(key, items, j)
  {
    assert (items + [x])[..j] == items[..j];
    assert forall i: nat :: Precedes(key, items + [x], i, j) == Precedes(key, items, i, j);
  }

  lemma SupersedingNext(key: KeyOf, items: seq<Item>, x: Item)
    ensures var n := |items|;
      |Superseding(key, items + [x])|
      == |Superseding(key, items)| + if !x.isEnd && AfterStart(key, items + [x], n) then 1 else 0
  {
    hide AfterStart;
    var n, all := |items|, items + [x];
    var before, after, added := Superseding(key, items), Superseding(key, all), !x.isEnd && AfterStart(key, items + [x], n);
    forall j: nat ensures j in after <==> j in before || (added && j == n) {
      if j < n { AfterStartStays(key, items, x, j); }
    }
    OneMorePosition(before, after, n, added);
  }

  lemma StraysNext(key: KeyOf, items: seq<Item>, x: Item)
    ensures var n := |items|;
      |Strays(key, items + [x])|
      == |Strays(key, items)| + if x.isEnd && !AfterStart(key, items + [x], n) then 1 else 0
  {
    hide AfterStart;
    var n, all := |items|, items + [x];
    var before, after, added := Strays(key, items), Strays(key, all), x.isEnd && !AfterStart(key, items + [x], n);
    forall j: nat ensures j in after <==> j in before || (added && j == n) {
      if j < n { AfterStartStays(key, items, x, j); }
    }
    OneMorePosition(before, after, n, added);
  }

  lemma KeylessNext(key: KeyOf, items: seq<Item>, x: Item)
    ensures |Keyless(key, items + [x])| == |Keyless(key, items)| + if !x.isEnd && key(x.event).None? then 1 else 0
  {
    OneMorePosition(Keyless(key, items), Keyless(key, items + [x]), |items|, !x.isEnd && key(x.event).None?);
  }

  lemma LeftOverNext(pending: map<Key, Event>, key: KeyOf, items: seq<Item>, x: Item)
    requires Pending(pending, key, items)
    ensures var after := key(x.event).Some? && key(x.event).value in pending;
      && |Superseding(key, items + [x])| == |Superseding(key, items)| + (if !x.isEnd && after then 1 else 0)
      && |Strays(key, items + [x])| == |Strays(key, items)| + (if x.isEnd && !after then 1 else 0)
      && |Keyless(key, items + [x])| == |Keyless(key, items)| + (if !x.isEnd && key(x.event).None? then 1 else 0)
  {
    hide *;
    AfterStartIff(pending, key, items, x);
    SupersedingNext(key, items, x);
    StraysNext(key, items, x);
    KeylessNext(key, items, x);
  }

  lemma PendingIsOpen(pending: map<Key, Event>, key: KeyOf, items: seq<Item>)
    requires Pending(pending, key, items)
    ensures pending.Keys == OpenKeys(key, items)
  {
    hide Lane;
    forall k ensures k in pending <==> k in OpenKeys(key, items) {
      assert PendingIn(pending, k, Lane(key, k, items));
      var i := LaneEnd(key, k, items);
      if k in OpenKeys(key, items) {
        var j: nat :| j < |items| && !items[j].isEnd && key(items[j].event) == Some(k) && LastWith(key, k, items, j);
        assert j == i;
      }
    }
  }

  datatype Progress = Progress(pending: map<Key, Event>, pairs: seq<Pair>,
                               unmatchedStart: nat, unmatchedEnd: nat, ambiguous: nat)

  /** `items` have been replayed; the starts and the ends counted so far add up, and each counter counts its own. */
  ghost predicate Replayed(key: KeyOf, items: seq<Item>, p: Progress) {
    && p.pairs == Emitted(LastStart(), key, items)
    && Pending(p.pending, key, items)
    && |Filter(IsStart(), items)| == |p.pairs| + |p.pending| + p.unmatchedStart + p.ambiguous
    && |Filter(IsEnd(), items)| == |p.pairs| + p.unmatchedEnd
    && p.ambiguous == |Superseding(key, items)| && p.unmatchedStart == |Keyless(key, items)|
    && p.unmatchedEnd == |Strays(key, items)|
  }

  lemma Begin(key: KeyOf)
    ensures Replayed(key, [], Progress(map[], [], 0, 0, 0))
  {
  }

  lemma Finish(key: KeyOf, items: seq<Item>, p: Progress)
    requires Replayed(key, items, p)
    ensures p.pairs == Emitted(LastStart(), key, items)
    ensures |Filter(IsStart(), items)| == |p.pairs| + |p.pending| + p.unmatchedStart + p.ambiguous
    ensures |Filter(IsEnd(), items)| == |p.pairs| + p.unmatchedEnd
    ensures p.ambiguous == |Superseding(key, items)| && p.unmatchedEnd == |Strays(key, items)|
    ensures p.unmatchedStart + |p.pending| == |Keyless(key, items)| + |OpenKeys(key, items)|
  {
    hide Pending, Emitted, Filter, LastStart, Superseding, Strays, Keyless, OpenKeys;
    PendingIsOpen(p.pending, key, items);
    assert |p.pending| == |p.pending.Keys|;
  }

  lemma NextKeyless(key: KeyOf, items: seq<Item>, x: Item, p: Progress)
    requires Sorted(NotLater, items + [x]) && Replayed(key, items, p) && key(x.event).None?
    ensures !x.isEnd ==> Replayed(key, items + [x], p.(unmatchedStart := p.unmatchedStart + 1))
    ensures x.isEnd ==> Replayed(key, items + [x], p.(unmatchedEnd := p.unmatchedEnd + 1))
  {
    hide Pending, Emitted, More, Filter, LastStart, Sorted, Superseding, Strays, Keyless;
    LeftOverNext(p.pending, key, items, x);
    PendingNext(p.pending, key, items, x);
    MoreIsPending(p.pending, key, items, x);
    EmittedSnoc(LastStart(), key, items, x);
    CountNext(items, x);
  }

  lemma NextStart(key: KeyOf, items: seq<Item>, x: Item, p: Progress)
    requires Sorted(NotLater, items + [x]) && Replayed(key, items, p) && key(x.event).Some? && !x.isEnd
    ensures var k := key(x.event).value;
      Replayed(key, items + [x], p.(pending := p.pending[k := x.event],
                                    ambiguous := p.ambiguous + if k in p.pending then 1 else 0))
  {
    hide Pending, Emitted, More, Filter, LastStart, Sorted, Superseding, Strays, Keyless;
    LeftOverNext(p.pending, key, items, x);
    PendingNext(p.pending, key, items, x);
    MoreIsPending(p.pending, key, items, x);
    EmittedSnoc(LastStart(), key, items, x);
    CountNext(items, x);
  }

  lemma NextStray(key: KeyOf, items: seq<Item>, x: Item, p: Progress)
    requires Sorted(NotLater, items + [x]) && Replayed(key, items, p) && key(x.event).Some? && x.isEnd
    requires key(x.event).value !in p.pending
    ensures Replayed(key, items + [x], p.(unmatchedEnd := p.unmatchedEnd + 1))
  {
    hide Pending, Emitted, More, Filter, LastStart, Sorted, Superseding, Strays, Keyless;
    LeftOverNext(p.pending, key, items, x);
    PendingNext(p.pending, key, items, x);
    MoreIsPending(p.pending, key, items, x);
    EmittedSnoc(LastStart(), key, items, x);
    CountNext(items, x);
    assert p.pending - {key(x.event).value} == p.pending;
  }

  lemma NextClose(key: KeyOf, items: seq<Item>, x: Item, p: Progress, k: Key)
    requires Sorted(NotLater, items + [x]) && Replayed(key, items, p) && key(x.event) == Some(k) && x.isEnd
    requires k in p.pending
    ensures p.pending[k].timestampNs <= x.event.timestampNs
    ensures Replayed(key, items + [x],
              p.(pending := p.pending - {k},
                 pairs := p.pairs + [Pair(p.pending[k], x.event, x.event.timestampNs - p.pending[k].timestampNs)]))
  {
    hide Pending, Emitted, More, Filter, LastStart, Sorted, Superseding, Strays, Keyless;
    LeftOverNext(p.pending, key, items, x);
    PendingNext(p.pending, key, items, x);
    MoreIsPending(p.pending, key, items, x);
    EmittedSnoc(LastStart(), key, items, x);
    CountNext(items, x);
  }

  /** The loop over the timeline. */
  method Replay(key: KeyOf, items: seq<Item>)
    returns (pairs: seq<Pair>, unmatchedStart: nat, unmatchedEnd: nat, ambiguous: nat)
    requires Sorted(NotLater, items)
    ensures pairs == Emitted(LastStart(), key, items)
    ensures |Filter(IsStart(), items)| == |pairs| + unmatchedStart + ambiguous
    ensures |Filter(IsEnd(), items)| == |pairs| + unmatchedEnd
    ensures ambiguous == |Superseding(key, items)| && unmatchedEnd == |Strays(key, items)|
    ensures unmatchedStart == |Keyless(key, items)| + |OpenKeys(key, items)|
  {
    hide *;
    var pending: map<Key, Event> := map[];
    pairs, unmatchedStart, unmatchedEnd, ambiguous := [], 0, 0, 0;
    Begin(key);
    for i := 0 to |items|
      invariant Replayed(key, items[..i], Progress(pending, pairs, unmatchedStart, unmatchedEnd, ambiguous))
    {
      var x := items[i];
      ghost var p := Progress(pending, pairs, unmatchedStart, unmatchedEnd, ambiguous);
      assert items[..i + 1] == items[..i] + [x];
      SortedParts(items, i + 1);
      match key(x.event)
      case None =>
        NextKeyless(key, items[..i], x, p);
        if !x.isEnd { unmatchedStart := unmatchedStart + 1; } else { unmatchedEnd := unmatchedEnd + 1; }
      case Some(k) =>
        if !x.isEnd {
          NextStart(key, items[..i], x, p);
          if k in pending { ambiguous := ambiguous + 1; }
          pending := pending[k := x.event];
        } else {
          if k in pending {
            NextClose(key, items[..i], x, p, k);
            var start := pending[k];
            pending := pending - {k};
            if start.timestampNs <= x.event.timestampNs {
              pairs := pairs + [Pair(start, x.event, x.event.timestampNs - start.timestampNs)];
            } else {
              assert false;
            }
          } else {
            NextStray(key, items[..i], x, p);
            unmatchedEnd := unmatchedEnd + 1;
          }
        }
    }
    assert items[..|items|] == items;
    Finish(key, items, Progress(pending, pairs, unmatchedStart, unmatchedEnd, ambiguous));
    unmatchedStart := unmatchedStart + |pending|;
  }

  method Correlate(key: KeyOf, starts: seq<Event>, ends: seq<Event>, limit: Option<nat>) returns (o: Outcome)
    ensures o.pairs == Limited(LifecyclePairs(key, starts, ends), limit)
    ensures |LifecyclePairs(key, starts, ends)| + o.unmatchedStart + o.ambiguous == |starts|
    ensures |LifecyclePairs(key, starts, ends)| + o.unmatchedEnd == |ends|
    ensures var items := Merged(BySequence, starts, ends);
      && o.ambiguous == |Superseding(key, items)| && o.unmatchedEnd == |Strays(key, items)|
      && o.unmatchedStart == |Keyless(key, items)| + |OpenKeys(key, items)|
  {
    hide Superseding, Strays, Keyless, OpenKeys;
    hide Filter, Merged, Emitted, LastStart, BySequence, Sorted;
    BothTemporal();
    MergedCounts(BySequence, starts, ends);
    var pairs, unmatchedStart, unmatchedEnd, ambiguous := Replay(key, Merged(BySequence, starts, ends));
    SortPermutes(ByStart, pairs);
    pairs := StableSort(ByStart, pairs);
    o := Outcome(Limited(pairs, limit), unmatchedStart, unmatchedEnd, ambiguous);
  }
}

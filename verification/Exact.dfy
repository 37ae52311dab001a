/** The exact policy: the starts and ends of a correlation key are zipped in time order, if there
    are equally many of them.
 */
module Exact {
  import opened Common
  import opened Events
  import opened Grouping
  import opened Sorting
  import FirstAfter

  function ZipPairs(starts: seq<Event>, ends: seq<Event>): (r: seq<Pair>)
    requires |starts| == |ends|
  {
    if starts == [] then []
    else (if starts[0].timestampNs <= ends[0].timestampNs then [Matched(starts[0], ends[0])] else [])
         + ZipPairs(starts[1..], ends[1..])
  }

  /** One key's pairs: none if the counts differ, and none that would run backwards in time. */
  function Zipped(starts: seq<Event>, ends: seq<Event>): (r: seq<Pair>) {
    if |starts| != |ends| then [] else ZipPairs(starts, ends)
  }

  function ExactPairs(starts: seq<Event>, ends: seq<Event>): (r: seq<Pair>) {
    Grouped(Zipped, CorrelationKey, starts, ends)
  }

  lemma {:induction false} ZipMembers(starts: seq<Event>, ends: seq<Event>, p: Pair)
    requires |starts| == |ends| && p in ZipPairs(starts, ends)
    ensures p.start in starts && p.end in ends
  {
    if starts[0].timestampNs > ends[0].timestampNs || p != Matched(starts[0], ends[0]) {
      ZipMembers(starts[1..], ends[1..], p);
    }
  }

  lemma {:induction false} ZipByStart(starts: seq<Event>, ends: seq<Event>)
    requires |starts| == |ends| && Sorted(ByTime, starts)
    ensures Sorted(ByStart, ZipPairs(starts, ends))
  {
    if starts != [] {
      ZipByStart(starts[1..], ends[1..]);
      forall p | p in ZipPairs(starts[1..], ends[1..]) ensures ByTime(starts[0], p.start) {
        ZipMembers(starts[1..], ends[1..], p);
      }
    }
  }

  lemma ZippedPairs()
    ensures Pairs(Zipped)
  {
    forall s: seq<Event>, e: seq<Event>, p | p in Zipped(s, e) ensures p.start in s && p.end in e {
      ZipMembers(s, e, p);
    }
    forall s: seq<Event>, e: seq<Event> | Sorted(ByTime, s) ensures Sorted(ByStart, Zipped(s, e)) {
      if |s| == |e| { ZipByStart(s, e); }
    }
  }

  /** Seen through one key, the outcome is the zip of that key's starts and ends. */
  lemma ThroughCorrelation(starts: seq<Event>, ends: seq<Event>, k: Key)
    requires Sorted(ByTime, starts)
    ensures Filter(PairHasKey(CorrelationKey, k), ExactPairs(starts, ends))
            == Zipped(Group(CorrelationKey, k, starts), Group(CorrelationKey, k, ends))
  {
    ZippedPairs();
    ThroughKey(Zipped, CorrelationKey, k, starts, ends);
  }

  /** Every pair joins a start and an end of one key. */
  lemma OneCorrelation(starts: seq<Event>, ends: seq<Event>, p: Pair)
    requires p in ExactPairs(starts, ends)
    ensures p.start in starts && p.end in ends
    ensures CorrelationKey(p.start).Some? && CorrelationKey(p.start) == CorrelationKey(p.end)
  {
    ZippedPairs();
    Members(Zipped, CorrelationKey, starts, ends, p);
  }

  lemma {:induction false} ZipUsesOnce(starts: seq<Event>, ends: seq<Event>)
    requires |starts| == |ends|
    ensures UsesOnce(ZipPairs(starts, ends), starts, ends)
  {
    hide UsesOnce;
    if starts == [] {
      NoUses(starts, ends);
    } else {
      var rest := ZipPairs(starts[1..], ends[1..]);
      ZipUsesOnce(starts[1..], ends[1..]);
      assert starts == [starts[0]] + starts[1..] && ends == [ends[0]] + ends[1..];
      UsesLess(rest, starts[1..], ends[1..], starts[0], ends[0]);
      if starts[0].timestampNs <= ends[0].timestampNs {
        UsesMore(Matched(starts[0], ends[0]), rest, starts[1..], ends[1..]);
      } else {
        assert [] + rest == rest;
      }
    }
  }

  /** No event is in two pairs. */
  lemma EventsUsedOnce(starts: seq<Event>, ends: seq<Event>)
    ensures UsesOnce(ExactPairs(starts, ends), starts, ends)
  {
    ZippedPairs();
    forall s: seq<Event>, e: seq<Event> ensures UsesOnce(Zipped(s, e), s, e) {
      if |s| == |e| { ZipUsesOnce(s, e); } else { NoUses(s, e); }
    }
    GroupedUsesOnce(Zipped, CorrelationKey, starts, ends);
  }

  // The zip pairs everything whenever anything could

  ghost predicate AllOrdered(starts: seq<Event>, ends: seq<Event>, i: nat)
    requires |starts| == |ends|
  {
    forall k :: i <= k < |starts| ==> starts[k].timestampNs <= ends[k].timestampNs
  }

  lemma {:induction false} LinksFewer(starts: seq<Event>, ends: seq<Event>, i: nat, j: nat)
    requires i <= |starts| && j <= |ends|
    ensures |FirstAfter.Links(starts, ends, i, j)| <= |ends| - j
    decreases |starts| - i + |ends| - j
  {
    if i < |starts| && j < |ends| {
      if ends[j].timestampNs < starts[i].timestampNs {
        LinksFewer(starts, ends, i, j + 1);
      } else {
        LinksFewer(starts, ends, i + 1, j + 1);
      }
    }
  }

  /** With end `i` before start `i`, too few ends are left for the starts from `i`. */
  lemma TooFew(starts: seq<Event>, ends: seq<Event>, i: nat, m: set<FirstAfter.Link>)
    requires i < |starts| == |ends| && Sorted(ByTime, starts) && Sorted(ByTime, ends)
    requires FirstAfter.Matching(starts, ends, i, i, m) && ends[i].timestampNs < starts[i].timestampNs
    ensures |m| < |starts| - i
  {
    hide FirstAfter.Matching, Sorted;
    FirstAfter.MaximumFrom(starts, ends, i, i, m);
    LinksFewer(starts, ends, i, i + 1);
  }

  lemma {:induction false} PerfectFrom(starts: seq<Event>, ends: seq<Event>, i: nat, m: set<FirstAfter.Link>)
    requires |starts| == |ends| && Sorted(ByTime, starts) && Sorted(ByTime, ends) && i <= |starts|
    requires FirstAfter.Matching(starts, ends, i, i, m) && |m| >= |starts| - i
    ensures AllOrdered(starts, ends, i)
    decreases |starts| - i
  {
    hide FirstAfter.Matching, Sorted;
    if i < |starts| {
      if ends[i].timestampNs < starts[i].timestampNs {
        TooFew(starts, ends, i, m);
      } else {
        var m' := FirstAfter.Exchange(starts, ends, i, i, m);
        PerfectFrom(starts, ends, i + 1, m');
      }
    }
  }

  lemma {:induction false} ZipAll(starts: seq<Event>, ends: seq<Event>)
    requires |starts| == |ends|
    ensures |ZipPairs(starts, ends)| == |starts| <==> AllOrdered(starts, ends, 0)
    ensures |ZipPairs(starts, ends)| <= |starts|
  {
    if starts != [] {
      ZipAll(starts[1..], ends[1..]);
      assert AllOrdered(starts, ends, 0) <==>
               starts[0].timestampNs <= ends[0].timestampNs && AllOrdered(starts[1..], ends[1..], 0) by {
        assert forall k :: 1 <= k < |starts| ==> starts[k] == starts[1..][k - 1] && ends[k] == ends[1..][k - 1];
        assert forall k :: 0 <= k < |starts| - 1 ==> starts[1..][k] == starts[k + 1] && ends[1..][k] == ends[k + 1];
      }
    }
  }

  /** If any one-to-one pairing of all of a key's starts and ends runs forward in time, the zip is one. */
  lemma ZipPerfect(starts: seq<Event>, ends: seq<Event>, m: set<FirstAfter.Link>)
    requires |starts| == |ends| && Sorted(ByTime, starts) && Sorted(ByTime, ends)
    requires FirstAfter.Matching(starts, ends, 0, 0, m) && |m| == |starts|
    ensures |Zipped(starts, ends)| == |starts|
  {
    PerfectFrom(starts, ends, 0, m);
    ZipAll(starts, ends);
  }

  // The duration window

  ghost predicate NoneOrdered(starts: seq<Event>, ends: seq<Event>, n: nat)
    requires n <= |starts| && n <= |ends|
  {
    forall i :: 0 <= i < n ==> ends[i].timestampNs < starts[i].timestampNs
  }

  lemma {:induction false} ZipNoneIff(starts: seq<Event>, ends: seq<Event>)
    requires |starts| == |ends|
    ensures ZipPairs(starts, ends) == [] <==> NoneOrdered(starts, ends, |starts|)
  {
    if starts != [] {
      ZipNoneIff(starts[1..], ends[1..]);
      assert NoneOrdered(starts, ends, |starts|) <==>
               ends[0].timestampNs < starts[0].timestampNs && NoneOrdered(starts[1..], ends[1..], |starts| - 1) by {
        assert forall i :: 1 <= i < |starts| ==> starts[i] == starts[1..][i - 1] && ends[i] == ends[1..][i - 1];
        assert forall i :: 0 <= i < |starts| - 1 ==> starts[1..][i] == starts[i + 1] && ends[1..][i] == ends[i + 1];
      }
    }
  }

  /** The pairs that end inside a window are the zip of the starts before the cut of the ends. */
  lemma {:induction false} ZipCut(starts: seq<Event>, ends: seq<Event>, t: nat, b: nat)
    requires |starts| == |ends| && b <= |ends|
    requires forall i :: 0 <= i < b ==> ends[i].timestampNs <= t
    requires forall i :: b <= i < |ends| ==> ends[i].timestampNs > t
    ensures Filter(EndsWithin(t), ZipPairs(starts, ends)) == ZipPairs(starts[..b], ends[..b])
  {
    if starts != [] {
      var first := if starts[0].timestampNs <= ends[0].timestampNs then [Matched(starts[0], ends[0])] else [];
      assert forall i :: 0 <= i < |ends| - 1 ==> ends[1..][i] == ends[i + 1];
      FilterConcat(EndsWithin(t), first, ZipPairs(starts[1..], ends[1..]));
      if b == 0 {
        ZipCut(starts[1..], ends[1..], t, 0);
      } else {
        ZipCut(starts[1..], ends[1..], t, b - 1);
        assert starts[..b][1..] == starts[1..][..b - 1] && ends[..b][1..] == ends[1..][..b - 1];
      }
    }
  }

  /** The cut does not change whether the counts agree, or no pair is at stake. */
  ghost predicate CutHarmless(starts: seq<Event>, ends: seq<Event>, t: nat) {
    var s, e := Filter(Within(t), starts), Filter(Within(t), ends);
    (|starts| == |ends| <==> |s| == |e|) || NoneOrdered(s, e, Min(|s|, |e|))
  }

  /** For one key, cutting the events keeps exactly the pairs that end inside the window if and only if the cut
      is harmless. */
  lemma ZipWindowIff(starts: seq<Event>, ends: seq<Event>, t: nat)
    requires Sorted(ByTime, starts) && Sorted(ByTime, ends)
    ensures Zipped(Filter(Within(t), starts), Filter(Within(t), ends)) == Filter(EndsWithin(t), Zipped(starts, ends))
            <==> CutHarmless(starts, ends, t)
  {
    hide Filter, Sorted, ZipPairs;
    var a := WindowIsPrefix(starts, t);
    var b := WindowIsPrefix(ends, t);
    if |starts| == |ends| {
      ZipCut(starts, ends, t, b);
      ZipNoneIff(starts[..b], ends[..b]);
      assert a < b ==> ends[a].timestampNs < starts[a].timestampNs;
      assert forall i :: a <= i < b ==> starts[i].timestampNs > t >= ends[i].timestampNs;
      assert forall i :: 0 <= i < Min(a, b) ==> starts[..a][i] == starts[i] && ends[..b][i] == ends[i];
      assert NoneOrdered(starts[..b], ends[..b], b) <==> NoneOrdered(starts[..a], ends[..b], Min(a, b));
    } else {
      FilterNone(EndsWithin(t), []);
      if a == b { ZipNoneIff(starts[..a], ends[..b]); }
    }
  }

  /** Unlike the other grouped policy, the exact policy does not commute with the duration window: cutting the
      inputs keeps exactly the pairs that end inside it if and only if the cut is harmless for every key. */
  lemma ExactWindowIff(starts: seq<Event>, ends: seq<Event>, t: nat)
    requires Sorted(ByTime, starts) && Sorted(ByTime, ends)
    ensures ExactPairs(Filter(Within(t), starts), Filter(Within(t), ends))
            == Filter(EndsWithin(t), ExactPairs(starts, ends))
            <==> forall k :: CutHarmless(Group(CorrelationKey, k, starts), Group(CorrelationKey, k, ends), t)
  {
    hide Sorted, Filter, Zipped, Pairs, CutHarmless, HasKey, CorrelationKey, Grouped;
    ZippedPairs();
    WindowIffKeys(Zipped, CorrelationKey, starts, ends, t);
    forall k ensures CommutesAt(Zipped, CorrelationKey, k, starts, ends, t)
                     <==> CutHarmless(Group(CorrelationKey, k, starts), Group(CorrelationKey, k, ends), t) {
      FilterSorted(ByTime, HasKey(CorrelationKey, k), starts);
      FilterSorted(ByTime, HasKey(CorrelationKey, k), ends);
      ZipWindowIff(Group(CorrelationKey, k, starts), Group(CorrelationKey, k, ends), t);
    }
  }

  lemma ZipWindowLoses(e: Event)
    ensures var s, f := [e.(timestampNs := 1), e.(timestampNs := 2)], [e.(timestampNs := 3), e.(timestampNs := 9)];
      && Filter(EndsWithin(5), Zipped(s, f)) == [Matched(s[0], f[0])]
      && Filter(Within(5), s) == s && Filter(Within(5), f) == [f[0]]
  {
    var s, f := [e.(timestampNs := 1), e.(timestampNs := 2)], [e.(timestampNs := 3), e.(timestampNs := 9)];
    assert s[1..] == [s[1]] && f[1..] == [f[1]];
    assert ZipPairs(s[1..], f[1..]) == [Matched(s[1], f[1])];
    assert Zipped(s, f) == [Matched(s[0], f[0]), Matched(s[1], f[1])];
    FilterConcat(EndsWithin(5), [Matched(s[0], f[0])], [Matched(s[1], f[1])]);
    FilterConcat(Within(5), [s[0]], [s[1]]);
    FilterConcat(Within(5), [f[0]], [f[1]]);
    assert s == [s[0]] + [s[1]] && f == [f[0]] + [f[1]];
    assert Zipped(s, f) == [Matched(s[0], f[0])] + [Matched(s[1], f[1])];
  }

  /** With any correlation key: a pair can be lost although both its events are inside the window. */
  lemma ExactWindowLoses(e: Event)
    requires CorrelationKey(e).Some?
    ensures var s, f := [e.(timestampNs := 1), e.(timestampNs := 2)], [e.(timestampNs := 3), e.(timestampNs := 9)];
      && Filter(EndsWithin(5), ExactPairs(s, f)) == [Matched(s[0], f[0])]
      && ExactPairs(Filter(Within(5), s), Filter(Within(5), f)) == []
  {
    var s, f := [e.(timestampNs := 1), e.(timestampNs := 2)], [e.(timestampNs := 3), e.(timestampNs := 9)];
    var k := CorrelationKey(e).value;
    assert forall t: nat :: CorrelationKey(e.(timestampNs := t)) == Some(k);
    ZippedPairs();
    OnlyKey(Zipped, CorrelationKey, k, s, f);
    OnlyKey(Zipped, CorrelationKey, k, s, [f[0]]);
    ZipWindowLoses(e);
  }

  // The loops

  ghost predicate Zipping(starts: seq<Event>, ends: seq<Event>, i: nat, pairs: seq<Pair>)
    requires |starts| == |ends| && i <= |starts|
  {
    ZipPairs(starts, ends) == pairs + ZipPairs(starts[i..], ends[i..])
  }

  method PairKey(starts: seq<Event>, ends: seq<Event>) returns (pairs: seq<Pair>, backwards: nat)
    requires |starts| == |ends|
    ensures pairs == Zipped(starts, ends)
    ensures |pairs| + backwards == |starts|
  {
    pairs, backwards := [], 0;
    assert starts[0..] == starts && ends[0..] == ends;
    for i := 0 to |starts|
      invariant Zipping(starts, ends, i, pairs)
      invariant |pairs| + backwards == i
    {
      assert starts[i..][1..] == starts[i + 1..] && ends[i..][1..] == ends[i + 1..];
      if starts[i].timestampNs <= ends[i].timestampNs {
        pairs := pairs + [Pair(starts[i], ends[i], ends[i].timestampNs - starts[i].timestampNs)];
      } else {
        backwards := backwards + 1;
      }
    }
  }

  /** A key that both sides have, but not equally often. */
  predicate Unequal(starts: seq<Event>, ends: seq<Event>, k: Key) {
    Group(CorrelationKey, k, ends) != [] && |Group(CorrelationKey, k, starts)| != |Group(CorrelationKey, k, ends)|
  }

  function UnequalKeys(starts: seq<Event>, ends: seq<Event>, keys: seq<Key>): (r: set<Key>) {
    set k | k in keys && Unequal(starts, ends, k)
  }

  /** The larger side of every unequal key. */
  function Larger(starts: seq<Event>, ends: seq<Event>, keys: seq<Key>): (n: nat) {
    if keys == [] then 0
    else
      var k := keys[|keys| - 1];
      Larger(starts, ends, keys[..|keys| - 1])
      + if Unequal(starts, ends, k) then Max(|Group(CorrelationKey, k, starts)|, |Group(CorrelationKey, k, ends)|) else 0
  }

  /** The keys in `keys` have been paired.  What a key with unequal sides holds is not counted as unmatched. */
  ghost predicate Paired(starts: seq<Event>, ends: seq<Event>, keys: seq<Key>, pairs: seq<Pair>,
                         unmatchedStart: nat, unmatchedEnd: nat, ambiguous: nat)
  {
    var held := UnequalKeys(starts, ends, keys);
    && pairs == ByGroup(Zipped, CorrelationKey, keys, starts, ends)
    && |pairs| + unmatchedStart + Covered(CorrelationKey, held, starts)
       == Covered(CorrelationKey, Set(keys), starts) + Covered(CorrelationKey, {}, starts)
    && |pairs| + unmatchedEnd + Covered(CorrelationKey, held, ends)
       == Covered(CorrelationKey, Set(keys), ends) + Covered(CorrelationKey, {}, ends)
    && ambiguous == Larger(starts, ends, keys)
  }

  lemma KeySetsNext(starts: seq<Event>, ends: seq<Event>, keys: seq<Key>, k: Key)
    ensures Set(keys + [k]) == Set(keys) + {k}
    ensures UnequalKeys(starts, ends, keys + [k])
            == if Unequal(starts, ends, k) then UnequalKeys(starts, ends, keys) + {k} else UnequalKeys(starts, ends, keys)
    ensures Larger(starts, ends, keys + [k])
            == Larger(starts, ends, keys)
               + if Unequal(starts, ends, k) then Max(|Group(CorrelationKey, k, starts)|, |Group(CorrelationKey, k, ends)|) else 0
  {
    assert (keys + [k])[..|keys|] == keys;
  }

  lemma PairNext(starts: seq<Event>, ends: seq<Event>, keys: seq<Key>, k: Key, pairs: seq<Pair>,
                 us: nat, ue: nat, am: nat, backwards: nat)
    requires Paired(starts, ends, keys, pairs, us, ue, am) && k !in keys
    requires var s, e := Group(CorrelationKey, k, starts), Group(CorrelationKey, k, ends);
      |s| == |e| ==> |Zipped(s, e)| + backwards == |s|
    ensures var s, e := Group(CorrelationKey, k, starts), Group(CorrelationKey, k, ends);
      if e == [] then Paired(starts, ends, keys + [k], pairs, us + |s|, ue, am)
      else if |s| != |e| then Paired(starts, ends, keys + [k], pairs, us, ue, am + Max(|s|, |e|))
      else Paired(starts, ends, keys + [k], pairs + Zipped(s, e), us + backwards, ue + backwards, am)
  {
    hide Covered, Group, ByGroup, CorrelationKey, Set, UnequalKeys, Larger, Max, ZipPairs;
    ByGroupSnoc(Zipped, CorrelationKey, keys, k, starts, ends);
    KeySetsNext(starts, ends, keys, k);
    assert k !in Set(keys) && k !in UnequalKeys(starts, ends, keys) by { NotIn(starts, ends, keys, k); }
    CoverMore(CorrelationKey, Set(keys), k, starts);
    CoverMore(CorrelationKey, Set(keys), k, ends);
    CoverMore(CorrelationKey, UnequalKeys(starts, ends, keys), k, starts);
    CoverMore(CorrelationKey, UnequalKeys(starts, ends, keys), k, ends);
    ZipNone(Group(CorrelationKey, k, starts));
  }

  lemma NotIn(starts: seq<Event>, ends: seq<Event>, keys: seq<Key>, k: Key)
    requires k !in keys
    ensures k !in Set(keys) && k !in UnequalKeys(starts, ends, keys)
  {
  }

  lemma ZipNone(s: seq<Event>)
    ensures Zipped(s, []) == []
  {
  }

  lemma Begin(starts: seq<Event>, ends: seq<Event>, noKey: nat, noKeyEnd: nat)
    requires noKey == Covered(CorrelationKey, {}, starts) && noKeyEnd == Covered(CorrelationKey, {}, ends)
    ensures Paired(starts, ends, [], [], noKey, noKeyEnd, 0)
  {
    assert Set([]) == {} && UnequalKeys(starts, ends, []) == {};
  }

  method PairKeys(starts: seq<Event>, ends: seq<Event>, startKeys: seq<Key>, startGroups: map<Key, seq<Event>>,
                  endGroups: map<Key, seq<Event>>, noKey: nat, noKeyEnd: nat)
    returns (pairs: seq<Pair>, unmatchedStart: nat, unmatchedEnd: nat, ambiguous: nat, left: map<Key, seq<Event>>)
    requires Distinct(startKeys) && (forall k :: k in startGroups <==> k in startKeys)
    requires forall k :: k in startGroups ==> startGroups[k] == Group(CorrelationKey, k, starts)
    requires forall k :: k in endGroups ==> endGroups[k] == Group(CorrelationKey, k, ends)
    requires forall k :: k in endGroups <==> Group(CorrelationKey, k, ends) != []
    requires noKey == Covered(CorrelationKey, {}, starts) && noKeyEnd == Covered(CorrelationKey, {}, ends)
    ensures Paired(starts, ends, startKeys, pairs, unmatchedStart, unmatchedEnd, ambiguous)
    ensures left == endGroups - Set(startKeys)
  {
    hide Paired, Covered, Group, CorrelationKey, Zipped, Set;
    pairs, unmatchedStart, unmatchedEnd, ambiguous, left := [], noKey, noKeyEnd, 0, endGroups;
    Begin(starts, ends, noKey, noKeyEnd);
    assert endGroups - Set([]) == endGroups by { assert Set([]) == {} by { NoKeys(); } }
    for i := 0 to |startKeys|
      invariant Paired(starts, ends, startKeys[..i], pairs, unmatchedStart, unmatchedEnd, ambiguous)
      invariant left == endGroups - Set(startKeys[..i])
    {
      var k := startKeys[i];
      var group := startGroups[k];
      assert startKeys[..i + 1] == startKeys[..i] + [k];
      InRest(endGroups, startKeys[..i], k);
      RestOf(endGroups, startKeys[..i], k);
      if k !in left {
        ZipNone(group);
        PairNext(starts, ends, startKeys[..i], k, pairs, unmatchedStart, unmatchedEnd, ambiguous, |group|);
        unmatchedStart := unmatchedStart + |group|;
      } else {
        var endGroup := left[k];
        left := left - {k};
        if |group| != |endGroup| {
          PairNext(starts, ends, startKeys[..i], k, pairs, unmatchedStart, unmatchedEnd, ambiguous, 0);
          ambiguous := ambiguous + Max(|group|, |endGroup|);
        } else {
          var more, backwards := PairKey(group, endGroup);
          PairNext(starts, ends, startKeys[..i], k, pairs, unmatchedStart, unmatchedEnd, ambiguous, backwards);
          pairs, unmatchedStart, unmatchedEnd := pairs + more, unmatchedStart + backwards, unmatchedEnd + backwards;
        }
      }
    }
    assert startKeys[..|startKeys|] == startKeys;
  }

  /** How many events have a key that both sides have, but not equally often. */
  function Held(starts: seq<Event>, ends: seq<Event>, events: seq<Event>): (n: nat) {
    |Filter(KeyIn(CorrelationKey, UnequalKeys(starts, ends, OrderedKeys(CorrelationKey, starts))), events)|
  }

  /** The events with a key in the set. */
  function Among(keys: set<Key>, events: seq<Event>): (n: nat) { |Filter(KeyIn(CorrelationKey, keys), events)| }

  lemma AmongMore(keys: set<Key>, k: Key, events: seq<Event>)
    requires k !in keys
    ensures Among(keys + {k}, events) == Among(keys, events) + |Group(CorrelationKey, k, events)|
  {
    CoverMore(CorrelationKey, keys, k, events);
  }

  lemma {:induction false} LargerBetween(starts: seq<Event>, ends: seq<Event>, keys: seq<Key>)
    requires Distinct(keys) && forall k :: k in keys ==> Group(CorrelationKey, k, starts) != []
    ensures var held, n := UnequalKeys(starts, ends, keys), Larger(starts, ends, keys);
      && Among(held, starts) <= n && Among(held, ends) <= n
      && n <= Among(held, starts) + Among(held, ends)
      && (held != {} ==> n < Among(held, starts) + Among(held, ends))
  {
    hide Group, Among, CorrelationKey;
    if keys == [] {
      assert UnequalKeys(starts, ends, keys) == {};
      NoneAmong(starts);
      NoneAmong(ends);
    } else {
      var init, k := keys[..|keys| - 1], keys[|keys| - 1];
      assert keys == init + [k];
      LargerBetween(starts, ends, init);
      KeySetsNext(starts, ends, init, k);
      var held := UnequalKeys(starts, ends, init);
      assert k !in held;
      AmongMore(held, k, starts);
      AmongMore(held, k, ends);
      NoneAmong(starts);
      NoneAmong(ends);
    }
  }

  lemma NoneAmong(events: seq<Event>)
    ensures Among({}, events) == 0
  {
    NoneIn(events);
  }

  /** The ambiguous count is no less than the starts and no less than the ends of the keys that both sides have
      unequally often, and less than both together; it is zero if and only if there is no such key. */
  lemma AmbiguousBetween(starts: seq<Event>, ends: seq<Event>)
    ensures var n := Larger(starts, ends, OrderedKeys(CorrelationKey, starts));
      && Held(starts, ends, starts) <= n && Held(starts, ends, ends) <= n
      && (n > 0 ==> n < Held(starts, ends, starts) + Held(starts, ends, ends))
      && (n == 0 <==> forall k :: k in OrderedKeys(CorrelationKey, starts) ==> !Unequal(starts, ends, k))
  {
    hide Group, CorrelationKey, OrderedKeys, Larger, Filter;
    var keys := OrderedKeys(CorrelationKey, starts);
    OrderedKeysExact(CorrelationKey, starts);
    forall k | k in keys ensures Group(CorrelationKey, k, starts) != [] { EmptyGroup(CorrelationKey, k, starts); }
    LargerBetween(starts, ends, keys);
    LargerZero(starts, ends, keys);
  }

  lemma {:induction false} LargerZero(starts: seq<Event>, ends: seq<Event>, keys: seq<Key>)
    ensures Larger(starts, ends, keys) == 0 <==> forall k :: k in keys ==> !Unequal(starts, ends, k)
    ensures Larger(starts, ends, keys) == 0 <==> UnequalKeys(starts, ends, keys) == {}
  {
    hide Group, CorrelationKey;
    if keys != [] {
      var init, k := keys[..|keys| - 1], keys[|keys| - 1];
      LargerZero(starts, ends, init);
      assert forall x :: x in keys <==> x in init || x == k;
      if Unequal(starts, ends, k) { assert k in UnequalKeys(starts, ends, keys); }
      assert forall x :: x in UnequalKeys(starts, ends, init) ==> x in UnequalKeys(starts, ends, keys);
    }
  }

  method Correlate(starts: seq<Event>, ends: seq<Event>, limit: Option<nat>) returns (o: Outcome)
    ensures o.pairs == Limited(ExactPairs(starts, ends), limit)
    ensures |ExactPairs(starts, ends)| + o.unmatchedStart + Held(starts, ends, starts) == |starts|
    ensures |ExactPairs(starts, ends)| + o.unmatchedEnd + Held(starts, ends, ends) == |ends|
    ensures o.ambiguous == Larger(starts, ends, OrderedKeys(CorrelationKey, starts))
  {
    hide Group, Zipped, CorrelationKey, OrderedKeys, Keys, ByGroup, UnequalKeys, Larger, Filter;
    var startKeys, startGroups, noKey := GroupBy(starts, CorrelationKey);
    var endKeys, endGroups, noKeyEnd := GroupBy(ends, CorrelationKey);
    OrderedKeysExact(CorrelationKey, starts);
    OrderedKeysExact(CorrelationKey, ends);
    forall k ensures k in endGroups <==> Group(CorrelationKey, k, ends) != [] { EmptyGroup(CorrelationKey, k, ends); }
    var pairs, unmatchedStart, unmatchedEnd, ambiguous, left :=
      PairKeys(starts, ends, startKeys, startGroups, endGroups, noKey, noKeyEnd);
    var rest := LeftOver(CorrelationKey, endKeys, left, ends, Set(startKeys));
    CoverKeys(CorrelationKey, Set(startKeys), starts);
    NoneIn(starts);
    NoneIn(ends);
    SortPermutes(ByStart, pairs);
    pairs := StableSort(ByStart, pairs);
    o := Outcome(Limited(pairs, limit), unmatchedStart, unmatchedEnd + rest, ambiguous);
  }

  lemma NoneIn(events: seq<Event>)
    ensures |Filter(KeyIn(CorrelationKey, {}), events)| == 0
  {
    FilterNone(KeyIn(CorrelationKey, {}), events);
  }
}

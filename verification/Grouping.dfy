/** Events grouped by a key in an ordered map, paired group by group in key order, and the
    pairs then sorted by start: the shape of the stream-order and exact policies.
 */
module Grouping {
  import opened Common
  import opened Events
  import opened Lex
  import opened Sorting

  type KeyOf = Event -> Option<Key>

  function HasKey(key: KeyOf, k: Key): Event -> bool { (e: Event) => key(e) == Some(k) }

  function NoKey(key: KeyOf): Event -> bool { (e: Event) => key(e) == None }

  function KeyIn(key: KeyOf, keys: set<Key>): Event -> bool {
    (e: Event) => key(e).Some? && key(e).value in keys
  }

  function Group(key: KeyOf, k: Key, events: seq<Event>): (g: seq<Event>) { Filter(HasKey(key, k), events) }

  // The keys of an ordered map

  function AddKey(keys: seq<Key>, k: Option<Key>): (r: seq<Key>) {
    if k.None? || k.value in keys then keys else keys + [k.value]
  }

  /** The distinct keys, in order of first appearance. */
  function Keys(key: KeyOf, events: seq<Event>): (keys: seq<Key>) {
    if events == [] then [] else AddKey(Keys(key, events[..|events| - 1]), key(events[|events| - 1]))
  }

  /** The distinct keys in the order the map iterates them. */
  function OrderedKeys(key: KeyOf, events: seq<Event>): (keys: seq<Key>) {
    StableSort(AtMost, Keys(key, events))
  }

  ghost predicate Distinct(keys: seq<Key>) {
    forall i, j :: 0 <= i < j < |keys| ==> keys[i] != keys[j]
  }

  function Set(keys: seq<Key>): (r: set<Key>) { set k | k in keys }

  lemma RestOf(groups: map<Key, seq<Event>>, keys: seq<Key>, k: Key)
    ensures (groups - Set(keys)) - {k} == groups - Set(keys + [k])
    ensures k !in keys && k !in groups ==> groups - Set(keys) == groups - Set(keys + [k])
  {
  }

  lemma InRest(groups: map<Key, seq<Event>>, keys: seq<Key>, k: Key)
    requires k !in keys
    ensures k in groups - Set(keys) <==> k in groups
    ensures k in groups ==> (groups - Set(keys))[k] == groups[k]
  {
  }

  lemma NoKeys()
    ensures Set([]) == {}
  {
  }

  lemma AtMostPreorder()
    ensures Preorder(AtMost)
  {
    forall a: Key, b: Key, c: Key ensures (AtMost(a, b) || AtMost(b, a)) && (AtMost(a, b) && AtMost(b, c) ==> AtMost(a, c)) {
      Order(a, b, c);
    }
  }

  lemma {:induction false} KeysExact(key: KeyOf, events: seq<Event>)
    ensures Distinct(Keys(key, events))
    ensures forall k :: k in Keys(key, events) <==> exists e :: e in events && key(e) == Some(k)
  {
    if events != [] {
      var init, last := events[..|events| - 1], events[|events| - 1];
      assert events == init + [last];
      KeysExact(key, init);
    }
  }

  lemma DistinctCount(keys: seq<Key>)
    ensures Distinct(keys) <==> forall k :: multiset(keys)[k] <= 1
  {
    if Distinct(keys) {
      forall k ensures multiset(keys)[k] <= 1 { CountsOnce(keys, k); }
    }
    forall i, j | 0 <= i < j < |keys| && keys[i] == keys[j] ensures multiset(keys)[keys[i]] > 1 {
      assert keys == keys[..i] + [keys[i]] + keys[i + 1..j] + [keys[j]] + keys[j + 1..];
    }
  }

  lemma {:induction false} CountsOnce(keys: seq<Key>, k: Key)
    requires Distinct(keys)
    ensures multiset(keys)[k] <= 1
  {
    if keys != [] {
      CountsOnce(keys[1..], k);
      assert keys == [keys[0]] + keys[1..];
      assert keys[0] !in keys[1..];
    }
  }

  /** An ordered map visits each key once, in ascending order. */
  lemma OrderedKeysExact(key: KeyOf, events: seq<Event>)
    ensures Distinct(OrderedKeys(key, events)) && Sorted(AtMost, OrderedKeys(key, events))
    ensures forall k :: k in OrderedKeys(key, events) <==> k in Keys(key, events)
  {
    KeysExact(key, events);
    SortPermutes(AtMost, Keys(key, events));
    DistinctCount(Keys(key, events));
    DistinctCount(OrderedKeys(key, events));
    AtMostPreorder();
    SortSorts(AtMost, Keys(key, events));
  }

  lemma EmptyGroup(key: KeyOf, k: Key, events: seq<Event>)
    ensures Group(key, k, events) == [] <==> k !in Keys(key, events)
  {
    KeysExact(key, events);
    if k in Keys(key, events) {
      var e :| e in events && key(e) == Some(k);
      FilterMember(HasKey(key, k), events, e);
    } else {
      FilterNone(HasKey(key, k), events);
    }
  }

  lemma {:induction false} FilterSnoc(p: Event -> bool, events: seq<Event>, e: Event)
    ensures Filter(p, events + [e]) == Filter(p, events) + if p(e) then [e] else []
  {
    FilterConcat(p, events, [e]);
  }

  // Counting events by key

  /** How many events have no key, or a key in `keys`. */
  function Covered(key: KeyOf, keys: set<Key>, events: seq<Event>): (n: nat) {
    |Filter(NoKey(key), events)| + |Filter(KeyIn(key, keys), events)|
  }

  lemma {:induction false} CoverMore(key: KeyOf, keys: set<Key>, k: Key, events: seq<Event>)
    requires k !in keys
    ensures Covered(key, keys + {k}, events) == Covered(key, keys, events) + |Group(key, k, events)|
  {
    if events != [] { CoverMore(key, keys, k, events[1..]); }
  }

  lemma {:induction false} CoverAll(key: KeyOf, keys: set<Key>, events: seq<Event>)
    requires forall e :: e in events && key(e).Some? ==> key(e).value in keys
    ensures Covered(key, keys, events) == |events|
  {
    if events != [] { CoverAll(key, keys, events[1..]); }
  }

  lemma CoverKeys(key: KeyOf, keys: set<Key>, events: seq<Event>)
    requires forall k :: k in OrderedKeys(key, events) ==> k in keys
    ensures Covered(key, keys, events) == |events|
  {
    OrderedKeysExact(key, events);
    KeysExact(key, events);
    CoverAll(key, keys, events);
  }

  method GroupBy(events: seq<Event>, key: KeyOf) returns (keys: seq<Key>, groups: map<Key, seq<Event>>, unkeyed: nat)
    ensures keys == OrderedKeys(key, events)
    ensures forall k :: k in groups <==> k in keys
    ensures forall k :: k in groups ==> groups[k] == Group(key, k, events)
    ensures unkeyed == Covered(key, {}, events)
  {
    keys, groups, unkeyed := [], map[], 0;
    for i := 0 to |events|
      invariant keys == Keys(key, events[..i])
      invariant forall k :: k in groups <==> k in keys
      invariant forall k :: k in groups ==> groups[k] == Group(key, k, events[..i])
      invariant unkeyed == |Filter(NoKey(key), events[..i])|
    {
      var e := events[i];
      assert events[..i + 1] == events[..i] + [e];
      assert events[..i + 1][..i] == events[..i];
      FilterSnoc(NoKey(key), events[..i], e);
      forall k ensures Group(key, k, events[..i + 1]) == Group(key, k, events[..i]) + if key(e) == Some(k) then [e] else [] {
        FilterSnoc(HasKey(key, k), events[..i], e);
      }
      match key(e) {
        case None => unkeyed := unkeyed + 1;
        case Some(k) =>
          if k in groups {
            groups := groups[k := groups[k] + [e]];
          } else {
            EmptyGroup(key, k, events[..i]);
            groups := groups[k := [e]];
            keys := keys + [k];
          }
      }
    }
    assert events[..|events|] == events;
    SortPermutes(AtMost, keys);
    FilterNone(KeyIn(key, {}), events);
    keys := StableSort(AtMost, keys);
  }

  /** The number of events in the groups that were never visited. */
  method LeftOver(key: KeyOf, keys: seq<Key>, groups: map<Key, seq<Event>>, events: seq<Event>, ghost visited: set<Key>)
    returns (n: nat)
    requires keys == OrderedKeys(key, events)
    requires forall k :: k in groups <==> k in keys && k !in visited
    requires forall k :: k in groups ==> groups[k] == Group(key, k, events)
    ensures Covered(key, visited, events) + n == |events|
  {
    n := 0;
    ghost var done := visited;
    OrderedKeysExact(key, events);
    hide *;
    for i := 0 to |keys|
      invariant forall k :: k in done <==> k in visited || k in keys[..i]
      invariant Covered(key, visited, events) + n == Covered(key, done, events)
    {
      var k := keys[i];
      assert keys[..i + 1] == keys[..i] + [k];
      if k in groups {
        assert k !in keys[..i];
        CoverMore(key, done, k, events);
        n := n + |groups[k]|;
        done := done + {k};
      }
    }
    CoverKeys(key, done, events);
  }

  // Pairing group by group

  type Pairing = (seq<Event>, seq<Event>) -> seq<Pair>

  function ByGroup(f: Pairing, key: KeyOf, keys: seq<Key>, starts: seq<Event>, ends: seq<Event>): (r: seq<Pair>) {
    if keys == [] then []
    else f(Group(key, keys[0], starts), Group(key, keys[0], ends)) + ByGroup(f, key, keys[1..], starts, ends)
  }

  /** All pairs, by start; pairs with equal starts stay in key order. */
  function Grouped(f: Pairing, key: KeyOf, starts: seq<Event>, ends: seq<Event>): (r: seq<Pair>) {
    StableSort(ByStart, ByGroup(f, key, OrderedKeys(key, starts), starts, ends))
  }

  lemma {:induction false} ByGroupSnoc(f: Pairing, key: KeyOf, keys: seq<Key>, k: Key, starts: seq<Event>, ends: seq<Event>)
    ensures ByGroup(f, key, keys + [k], starts, ends)
            == ByGroup(f, key, keys, starts, ends) + f(Group(key, k, starts), Group(key, k, ends))
  {
    if keys == [] {
      assert keys + [k] == [k];
    } else {
      assert (keys + [k])[1..] == keys[1..] + [k];
      ByGroupSnoc(f, key, keys[1..], k, starts, ends);
    }
  }

  /** `f` pairs starts with ends, and keeps the order of its starts. */
  ghost predicate Pairs(f: Pairing) {
    && (forall s, e :: s == [] || e == [] ==> f(s, e) == [])
    && (forall s, e, p :: p in f(s, e) ==> p.start in s && p.end in e)
    && (forall s, e :: Sorted(ByTime, s) ==> Sorted(ByStart, f(s, e)))
  }

  function PairHasKey(key: KeyOf, k: Key): Pair -> bool {
    (p: Pair) => key(p.start) == Some(k) && key(p.end) == Some(k)
  }

  lemma GroupKeys(f: Pairing, key: KeyOf, k: Key, starts: seq<Event>, ends: seq<Event>, p: Pair)
    requires Pairs(f) && p in f(Group(key, k, starts), Group(key, k, ends))
    ensures key(p.start) == Some(k) && key(p.end) == Some(k) && p.start in starts && p.end in ends
  {
    FilterMember(HasKey(key, k), starts, p.start);
    FilterMember(HasKey(key, k), ends, p.end);
  }

  lemma {:induction false} ByGroupKey(f: Pairing, key: KeyOf, keys: seq<Key>, k: Key,
                                      starts: seq<Event>, ends: seq<Event>)
    requires Pairs(f) && Distinct(keys)
    ensures Filter(PairHasKey(key, k), ByGroup(f, key, keys, starts, ends))
            == if k in keys then f(Group(key, k, starts), Group(key, k, ends)) else []
  {
    if keys != [] {
      var first := f(Group(key, keys[0], starts), Group(key, keys[0], ends));
      FilterConcat(PairHasKey(key, k), first, ByGroup(f, key, keys[1..], starts, ends));
      ByGroupKey(f, key, keys[1..], k, starts, ends);
      forall p | p in first ensures PairHasKey(key, k)(p) <==> k == keys[0] {
        GroupKeys(f, key, keys[0], starts, ends, p);
      }
      if k == keys[0] {
        FilterAll(PairHasKey(key, k), first);
      } else {
        FilterNone(PairHasKey(key, k), first);
      }
    }
  }

  lemma ByStartPreorder()
    ensures Preorder(ByStart)
  {
  }

  /** Seen through one key, the outcome is the pairing of that key's events alone. */
  lemma ThroughKey(f: Pairing, key: KeyOf, k: Key, starts: seq<Event>, ends: seq<Event>)
    requires Pairs(f) && Sorted(ByTime, starts)
    ensures Filter(PairHasKey(key, k), Grouped(f, key, starts, ends))
            == f(Group(key, k, starts), Group(key, k, ends))
  {
    var keys := OrderedKeys(key, starts);
    OrderedKeysExact(key, starts);
    ByGroupKey(f, key, keys, k, starts, ends);
    EmptyGroup(key, k, starts);
    ByStartPreorder();
    FilterSort(ByStart, PairHasKey(key, k), ByGroup(f, key, keys, starts, ends));
    FilterSorted(ByTime, HasKey(key, k), starts);
    SortIdentity(ByStart, f(Group(key, k, starts), Group(key, k, ends)));
  }

  /** Every pair of the outcome joins a start and an end of one key. */
  lemma {:induction false} ByGroupMembers(f: Pairing, key: KeyOf, keys: seq<Key>, starts: seq<Event>, ends: seq<Event>, p: Pair)
    requires Pairs(f) && p in ByGroup(f, key, keys, starts, ends)
    ensures p.start in starts && p.end in ends && key(p.start).Some? && key(p.start) == key(p.end)
  {
    if p in f(Group(key, keys[0], starts), Group(key, keys[0], ends)) {
      GroupKeys(f, key, keys[0], starts, ends, p);
    } else {
      ByGroupMembers(f, key, keys[1..], starts, ends, p);
    }
  }

  lemma Members(f: Pairing, key: KeyOf, starts: seq<Event>, ends: seq<Event>, p: Pair)
    requires Pairs(f) && p in Grouped(f, key, starts, ends)
    ensures p.start in starts && p.end in ends && key(p.start).Some? && key(p.start) == key(p.end)
  {
    SortPermutes(ByStart, ByGroup(f, key, OrderedKeys(key, starts), starts, ends));
    ByGroupMembers(f, key, OrderedKeys(key, starts), starts, ends, p);
  }

  /** Through one key, the group-by-group pairs use that key's events as often as the key's own pairing does. */
  lemma KeyUses(f: Pairing, key: KeyOf, keys: seq<Key>, of: Pair -> Event, k: Key, x: Event,
                starts: seq<Event>, ends: seq<Event>)
    requires Pairs(f) && Distinct(keys) && key(x) == Some(k) && (of == StartOf() || of == EndOf())
    ensures multiset(Map(of, ByGroup(f, key, keys, starts, ends)))[x]
            == if k in keys then multiset(Map(of, f(Group(key, k, starts), Group(key, k, ends))))[x] else 0
  {
    var pairs := ByGroup(f, key, keys, starts, ends);
    forall p | p in pairs && of(p) == x ensures PairHasKey(key, k)(p) {
      ByGroupMembers(f, key, keys, starts, ends, p);
    }
    MapFilterCount(of, PairHasKey(key, k), pairs, x);
    ByGroupKey(f, key, keys, k, starts, ends);
  }

  lemma NoKeyUses(f: Pairing, key: KeyOf, keys: seq<Key>, of: Pair -> Event, x: Event,
                  starts: seq<Event>, ends: seq<Event>)
    requires Pairs(f) && key(x) == None && (of == StartOf() || of == EndOf())
    ensures multiset(Map(of, ByGroup(f, key, keys, starts, ends)))[x] == 0
  {
    var pairs := ByGroup(f, key, keys, starts, ends);
    if x in multiset(Map(of, pairs)) {
      var i :| 0 <= i < |pairs| && Map(of, pairs)[i] == x;
      ByGroupMembers(f, key, keys, starts, ends, pairs[i]);
    }
  }

  lemma UsesCount(f: Pairing, key: KeyOf, keys: seq<Key>, x: Event, starts: seq<Event>, ends: seq<Event>)
    requires Pairs(f) && Distinct(keys)
    requires forall s, e :: UsesOnce(f(s, e), s, e)
    ensures multiset(Map(StartOf(), ByGroup(f, key, keys, starts, ends)))[x] <= multiset(starts)[x]
    ensures multiset(Map(EndOf(), ByGroup(f, key, keys, starts, ends)))[x] <= multiset(ends)[x]
  {
    if key(x) == None {
      NoKeyUses(f, key, keys, StartOf(), x, starts, ends);
      NoKeyUses(f, key, keys, EndOf(), x, starts, ends);
    } else {
      var k := key(x).value;
      KeyUses(f, key, keys, StartOf(), k, x, starts, ends);
      KeyUses(f, key, keys, EndOf(), k, x, starts, ends);
      FilterCount(HasKey(key, k), starts, x);
      FilterCount(HasKey(key, k), ends, x);
      assert UsesOnce(f(Group(key, k, starts), Group(key, k, ends)), Group(key, k, starts), Group(key, k, ends));
    }
  }

  /** If a pairing uses every event at most once, so does its group-by-group form. */
  lemma GroupedUsesOnce(f: Pairing, key: KeyOf, starts: seq<Event>, ends: seq<Event>)
    requires Pairs(f) && forall s, e :: UsesOnce(f(s, e), s, e)
    ensures UsesOnce(Grouped(f, key, starts, ends), starts, ends)
  {
    var keys := OrderedKeys(key, starts);
    var pairs := ByGroup(f, key, keys, starts, ends);
    OrderedKeysExact(key, starts);
    MapSortPermutes(ByStart, StartOf(), pairs);
    MapSortPermutes(ByStart, EndOf(), pairs);
    hide ByGroup, StableSort, OrderedKeys;
    forall x ensures multiset(Map(StartOf(), pairs))[x] <= multiset(starts)[x]
                     && multiset(Map(EndOf(), pairs))[x] <= multiset(ends)[x] {
      UsesCount(f, key, keys, x, starts, ends);
    }
  }

  // The duration window

  /** Cutting the inputs of `f` keeps exactly the pairs that end inside the window. */
  ghost predicate Commutes(f: Pairing, t: nat) {
    forall s, e :: Sorted(ByTime, s) && Sorted(ByTime, e) ==>
      f(Filter(Within(t), s), Filter(Within(t), e)) == Filter(EndsWithin(t), f(s, e))
  }

  /** The same for one key's events alone. */
  ghost predicate CommutesAt(f: Pairing, key: KeyOf, k: Key, starts: seq<Event>, ends: seq<Event>, t: nat) {
    f(Filter(Within(t), Group(key, k, starts)), Filter(Within(t), Group(key, k, ends)))
    == Filter(EndsWithin(t), f(Group(key, k, starts), Group(key, k, ends)))
  }

  lemma GroupOfCut(key: KeyOf, k: Key, events: seq<Event>, t: nat)
    ensures Group(key, k, Filter(Within(t), events)) == Filter(Within(t), Group(key, k, events))
  {
    FilterTwice(HasKey(key, k), Within(t), events);
  }

  lemma {:induction false} ByGroupWindow(f: Pairing, key: KeyOf, keys: seq<Key>,
                                         starts: seq<Event>, ends: seq<Event>, t: nat)
    requires forall k :: k in keys ==> CommutesAt(f, key, k, starts, ends, t)
    ensures ByGroup(f, key, keys, Filter(Within(t), starts), Filter(Within(t), ends))
            == Filter(EndsWithin(t), ByGroup(f, key, keys, starts, ends))
  {
    if keys != [] {
      var k := keys[0];
      ByGroupWindow(f, key, keys[1..], starts, ends, t);
      GroupOfCut(key, k, starts, t);
      GroupOfCut(key, k, ends, t);
      FilterConcat(EndsWithin(t), f(Group(key, k, starts), Group(key, k, ends)),
                   ByGroup(f, key, keys[1..], starts, ends));
      assert CommutesAt(f, key, k, starts, ends, t);
    }
  }

  function Present(key: KeyOf, starts: seq<Event>): Key -> bool { (k: Key) => k in Keys(key, starts) }

  lemma {:induction false} ByGroupPresent(f: Pairing, key: KeyOf, keys: seq<Key>, starts: seq<Event>, ends: seq<Event>)
    requires Pairs(f)
    ensures ByGroup(f, key, Filter(Present(key, starts), keys), starts, ends)
            == ByGroup(f, key, keys, starts, ends)
  {
    if keys != [] {
      EmptyGroup(key, keys[0], starts);
      ByGroupPresent(f, key, keys[1..], starts, ends);
    }
  }

  lemma {:induction false} KeysOfPrefix(key: KeyOf, events: seq<Event>, n: nat)
    requires n <= |events|
    ensures Filter(Present(key, events[..n]), Keys(key, events)) == Keys(key, events[..n])
    decreases |events|
  {
    var keys := Keys(key, events[..n]);
    if n == |events| {
      assert events[..n] == events;
      FilterAll(Present(key, events[..n]), keys);
    } else {
      var init := events[..|events| - 1];
      assert init[..n] == events[..n];
      KeysOfPrefix(key, init, n);
      KeysExact(key, init);
      KeysExact(key, events[..n]);
      var k := key(events[|events| - 1]);
      if k.Some? && k.value !in Keys(key, init) {
        FilterConcat(Present(key, events[..n]), Keys(key, init), [k.value]);
        assert forall e :: e in events[..n] ==> e in init;
      }
    }
  }

  lemma OrderedKeysOfWindow(key: KeyOf, starts: seq<Event>, t: nat)
    requires Sorted(ByTime, starts)
    ensures var cut := Filter(Within(t), starts);
      OrderedKeys(key, cut) == Filter(Present(key, cut), OrderedKeys(key, starts))
  {
    var n := WindowIsPrefix(starts, t);
    KeysOfPrefix(key, starts, n);
    AtMostPreorder();
    FilterSort(AtMost, Present(key, starts[..n]), Keys(key, starts));
  }

  /** If every key's own pairing commutes with the window, so does the whole, order included. */
  lemma WindowByKeys(f: Pairing, key: KeyOf, starts: seq<Event>, ends: seq<Event>, t: nat)
    requires Pairs(f) && Sorted(ByTime, starts) && forall k :: CommutesAt(f, key, k, starts, ends, t)
    ensures Grouped(f, key, Filter(Within(t), starts), Filter(Within(t), ends))
            == Filter(EndsWithin(t), Grouped(f, key, starts, ends))
  {
    hide Sorted, Filter, CommutesAt, ByGroup, Pairs, OrderedKeys;
    var keys := OrderedKeys(key, starts);
    var cut, cutEnds := Filter(Within(t), starts), Filter(Within(t), ends);
    OrderedKeysOfWindow(key, starts, t);
    ByGroupPresent(f, key, keys, cut, cutEnds);
    ByGroupWindow(f, key, keys, starts, ends, t);
    ByStartPreorder();
    FilterSort(ByStart, EndsWithin(t), ByGroup(f, key, keys, starts, ends));
  }

  /** And only if: the whole shows what each key's pairing does. */
  lemma WindowAtKey(f: Pairing, key: KeyOf, k: Key, starts: seq<Event>, ends: seq<Event>, t: nat)
    requires Pairs(f) && Sorted(ByTime, starts)
    requires Grouped(f, key, Filter(Within(t), starts), Filter(Within(t), ends))
             == Filter(EndsWithin(t), Grouped(f, key, starts, ends))
    ensures CommutesAt(f, key, k, starts, ends, t)
  {
    hide Sorted, Filter, Grouped, Pairs, Group;
    FilterSorted(ByTime, Within(t), starts);
    ThroughKey(f, key, k, Filter(Within(t), starts), Filter(Within(t), ends));
    ThroughKey(f, key, k, starts, ends);
    FilterTwice(PairHasKey(key, k), EndsWithin(t), Grouped(f, key, starts, ends));
    GroupOfCut(key, k, starts, t);
    GroupOfCut(key, k, ends, t);
  }

  lemma WindowIffKeys(f: Pairing, key: KeyOf, starts: seq<Event>, ends: seq<Event>, t: nat)
    requires Pairs(f) && Sorted(ByTime, starts)
    ensures Grouped(f, key, Filter(Within(t), starts), Filter(Within(t), ends))
            == Filter(EndsWithin(t), Grouped(f, key, starts, ends))
            <==> forall k :: CommutesAt(f, key, k, starts, ends, t)
  {
    hide *;
    if forall k :: CommutesAt(f, key, k, starts, ends, t) {
      WindowByKeys(f, key, starts, ends, t);
    }
    if Grouped(f, key, Filter(Within(t), starts), Filter(Within(t), ends))
       == Filter(EndsWithin(t), Grouped(f, key, starts, ends)) {
      forall k ensures CommutesAt(f, key, k, starts, ends, t) { WindowAtKey(f, key, k, starts, ends, t); }
    }
  }

  lemma WindowCommutes(f: Pairing, key: KeyOf, starts: seq<Event>, ends: seq<Event>, t: nat)
    requires Pairs(f) && Commutes(f, t) && Sorted(ByTime, starts) && Sorted(ByTime, ends)
    ensures Grouped(f, key, Filter(Within(t), starts), Filter(Within(t), ends))
            == Filter(EndsWithin(t), Grouped(f, key, starts, ends))
  {
    hide Sorted, Filter, Grouped, Pairs, HasKey;
    forall k ensures CommutesAt(f, key, k, starts, ends, t) {
      FilterSorted(ByTime, HasKey(key, k), starts);
      FilterSorted(ByTime, HasKey(key, k), ends);
    }
    WindowByKeys(f, key, starts, ends, t);
  }

  /** When all events have one key, the grouped pairing is the pairing. */
  lemma OnlyKey(f: Pairing, key: KeyOf, k: Key, starts: seq<Event>, ends: seq<Event>)
    requires Pairs(f) && Sorted(ByTime, starts)
    requires (forall e :: e in starts ==> key(e) == Some(k)) && (forall e :: e in ends ==> key(e) == Some(k))
    ensures Grouped(f, key, starts, ends) == f(starts, ends)
  {
    FilterAll(HasKey(key, k), starts);
    FilterAll(HasKey(key, k), ends);
    ThroughKey(f, key, k, starts, ends);
    forall p | p in Grouped(f, key, starts, ends) ensures PairHasKey(key, k)(p) {
      Members(f, key, starts, ends, p);
    }
    FilterAll(PairHasKey(key, k), Grouped(f, key, starts, ends));
  }
}

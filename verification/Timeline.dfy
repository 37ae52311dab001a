/** Starts and ends merged into one timeline, in which every end closes an open start of its own
    key: the shape of the lifecycle and stack-nested policies.  The two differ in which start of
    the key is open.
 */
module Timeline {
  import opened Common
  import opened Events
  import opened Grouping
  import opened Sorting

  datatype Item = Item(isEnd: bool, event: Event)

  function AsStart(): Event -> Item { (e: Event) => Item(false, e) }

  function AsEnd(): Event -> Item { (e: Event) => Item(true, e) }

  function IsEnd(): Item -> bool { (x: Item) => x.isEnd }

  function IsStart(): Item -> bool { (x: Item) => !x.isEnd }

  predicate NotLater(a: Item, b: Item) { a.event.timestampNs <= b.event.timestampNs }

  /** By time, starts before ends at the same time. */
  predicate ByBoundary(a: Item, b: Item) {
    a.event.timestampNs < b.event.timestampNs
    || (a.event.timestampNs == b.event.timestampNs && (b.isEnd || !a.isEnd))
  }

  /** By time and boundary, then by sequence number. */
  predicate BySequence(a: Item, b: Item) {
    ByBoundary(a, b) && (ByBoundary(b, a) ==> a.event.sequence <= b.event.sequence)
  }

  type Order = (Item, Item) -> bool

  /** An order that follows time. */
  ghost predicate Temporal(le: Order) {
    Preorder(le) && forall a, b :: le(a, b) ==> NotLater(a, b)
  }

  lemma BothTemporal()
    ensures Temporal(ByBoundary) && Temporal(BySequence)
  {
  }

  /** What the two orders say of two items: time first, then starts before ends, then the sequence number. */
  lemma OrdersMean(a: Item, b: Item)
    ensures ByBoundary(a, b)
            <==> a.event.timestampNs < b.event.timestampNs
                 || (a.event.timestampNs == b.event.timestampNs && !(a.isEnd && !b.isEnd))
    ensures BySequence(a, b)
            <==> a.event.timestampNs < b.event.timestampNs
                 || (a.event.timestampNs == b.event.timestampNs
                     && ((!a.isEnd && b.isEnd) || (a.isEnd == b.isEnd && a.event.sequence <= b.event.sequence)))
  {
  }

  function Merged(le: Order, starts: seq<Event>, ends: seq<Event>): (r: seq<Item>) {
    StableSort(le, Map(AsStart(), starts) + Map(AsEnd(), ends))
  }

  lemma MergedCounts(le: Order, starts: seq<Event>, ends: seq<Event>)
    requires Temporal(le)
    ensures Sorted(NotLater, Merged(le, starts, ends))
    ensures |Filter(IsStart(), Merged(le, starts, ends))| == |starts|
    ensures |Filter(IsEnd(), Merged(le, starts, ends))| == |ends|
  {
    var a, b := Map(AsStart(), starts), Map(AsEnd(), ends);
    SortSorts(le, a + b);
    FilterSort(le, IsStart(), a + b);
    FilterSort(le, IsEnd(), a + b);
    FilterConcat(IsStart(), a, b);
    FilterConcat(IsEnd(), a, b);
    FilterAll(IsStart(), a);
    FilterNone(IsStart(), b);
    FilterAll(IsEnd(), b);
    FilterNone(IsEnd(), a);
    SortPermutes(le, a);
    SortPermutes(le, b);
    assert a + [] == a && [] + b == b;
  }

  /** The timeline is in order, and it is made of the given starts and ends, each once. */
  lemma MergedHolds(le: Order, starts: seq<Event>, ends: seq<Event>)
    requires Preorder(le)
    ensures Sorted(le, Merged(le, starts, ends))
    ensures multiset(Merged(le, starts, ends)) == multiset(Map(AsStart(), starts)) + multiset(Map(AsEnd(), ends))
    ensures forall x :: x in Merged(le, starts, ends) <==> if x.isEnd then x.event in ends else x.event in starts
  {
    hide StableSort, Sorted;
    var a, b := Map(AsStart(), starts), Map(AsEnd(), ends);
    SortSorts(le, a + b);
    SortPermutes(le, a + b);
    forall x ensures x in Merged(le, starts, ends) <==> if x.isEnd then x.event in ends else x.event in starts {
      assert x in Merged(le, starts, ends) <==> x in multiset(a + b);
      assert x in multiset(a + b) <==> x in a || x in b;
      if !x.isEnd && x.event in starts {
        var i :| 0 <= i < |starts| && starts[i] == x.event;
        assert a[i] == x;
      }
      if x.isEnd && x.event in ends {
        var i :| 0 <= i < |ends| && ends[i] == x.event;
        assert b[i] == x;
      }
    }
  }

  function ItemWithin(t: nat): Item -> bool { (x: Item) => x.event.timestampNs <= t }

  lemma MergedWindow(le: Order, starts: seq<Event>, ends: seq<Event>, t: nat)
    requires Temporal(le)
    ensures Merged(le, Filter(Within(t), starts), Filter(Within(t), ends))
            == Filter(ItemWithin(t), Merged(le, starts, ends))
  {
    var a, b := Map(AsStart(), starts), Map(AsEnd(), ends);
    FilterSort(le, ItemWithin(t), a + b);
    FilterConcat(ItemWithin(t), a, b);
    FilterMap(ItemWithin(t), Within(t), AsStart(), starts);
    FilterMap(ItemWithin(t), Within(t), AsEnd(), ends);
  }

  lemma SortedParts(items: seq<Item>, i: nat)
    requires Sorted(NotLater, items) && i <= |items|
    ensures Sorted(NotLater, items[..i]) && Sorted(NotLater, items[i..])
  {
  }

  lemma CountNext(items: seq<Item>, x: Item)
    ensures |Filter(IsStart(), items + [x])| == |Filter(IsStart(), items)| + if x.isEnd then 0 else 1
    ensures |Filter(IsEnd(), items + [x])| == |Filter(IsEnd(), items)| + if x.isEnd then 1 else 0
  {
    FilterConcat(IsStart(), items, [x]);
    FilterConcat(IsEnd(), items, [x]);
  }

  // Closing

  function ItemHasKey(key: KeyOf, k: Key): Item -> bool { (x: Item) => key(x.event) == Some(k) }

  /** The part of a timeline that has one key. */
  function Lane(key: KeyOf, k: Key, items: seq<Item>): (r: seq<Item>) { Filter(ItemHasKey(key, k), items) }

  /** Which item of a lane an end would close next. */
  type Opener = seq<Item> -> Option<nat>

  function Close(open: Opener, lane: seq<Item>, x: Item): (r: seq<Pair>) {
    if x.isEnd && open(lane).Some? && open(lane).value < |lane| && NotLater(lane[open(lane).value], x)
    then [Matched(lane[open(lane).value].event, x.event)]
    else []
  }

  /** What one more item adds. */
  function More(open: Opener, key: KeyOf, items: seq<Item>, x: Item): (r: seq<Pair>) {
    if key(x.event).None? then [] else Close(open, Lane(key, key(x.event).value, items), x)
  }

  /** The pairs of a timeline, in the order of their ends. */
  function Emitted(open: Opener, key: KeyOf, items: seq<Item>): (r: seq<Pair>) {
    if items == [] then []
    else
      var init, x := items[..|items| - 1], items[|items| - 1];
      Emitted(open, key, init) + More(open, key, init, x)
  }

  /** The pairs of a timeline with a single key. */
  function Alone(open: Opener, lane: seq<Item>): (r: seq<Pair>) {
    if lane == [] then []
    else
      var init, x := lane[..|lane| - 1], lane[|lane| - 1];
      Alone(open, init) + Close(open, init, x)
  }

  function Pairs(open: Opener, key: KeyOf, le: Order, starts: seq<Event>, ends: seq<Event>): (r: seq<Pair>) {
    StableSort(ByStart, Emitted(open, key, Merged(le, starts, ends)))
  }

  lemma LaneSnoc(key: KeyOf, k: Key, items: seq<Item>, x: Item)
    ensures Lane(key, k, items + [x]) == Lane(key, k, items) + if key(x.event) == Some(k) then [x] else []
  {
    FilterConcat(ItemHasKey(key, k), items, [x]);
  }

  // Neighbours under a key

  /** The last item of the key. */
  ghost predicate LastWith(key: KeyOf, k: Key, items: seq<Item>, i: nat) {
    i < |items| && key(items[i].event) == Some(k)
    && forall m :: i < m < |items| ==> key(items[m].event) != Some(k)
  }

  /** A lane ends in the last item of its key. */
  lemma {:induction false} LaneEnd(key: KeyOf, k: Key, items: seq<Item>) returns (i: nat)
    ensures Lane(key, k, items) == [] ==> forall m :: 0 <= m < |items| ==> key(items[m].event) != Some(k)
    ensures Lane(key, k, items) != [] ==>
              LastWith(key, k, items, i) && items[i] == Lane(key, k, items)[|Lane(key, k, items)| - 1]
  {
    if items == [] {
      i := 0;
    } else {
      hide Lane;
      var n := |items| - 1;
      assert items == items[..n] + [items[n]];
      LaneSnoc(key, k, items[..n], items[n]);
      i := LaneEnd(key, k, items[..n]);
      if key(items[n].event) == Some(k) { i := n; }
    }
  }

  /** Item `i` is the last one of its key before item `j` of the same key. */
  ghost predicate Precedes(key: KeyOf, items: seq<Item>, i: nat, j: nat)
    requires j < |items|
  {
    i < j && key(items[j].event).Some? && LastWith(key, key(items[j].event).value, items[..j], i)
  }

  /** The item before it under its key is a start. */
  ghost predicate AfterStart(key: KeyOf, items: seq<Item>, j: nat)
    requires j < |items|
  {
    exists i: nat :: Precedes(key, items, i, j) && !items[i].isEnd
  }

  lemma EmittedSnoc(open: Opener, key: KeyOf, items: seq<Item>, x: Item)
    ensures Emitted(open, key, items + [x]) == Emitted(open, key, items) + More(open, key, items, x)
    ensures Alone(open, items + [x]) == Alone(open, items) + Close(open, items, x)
  {
    assert (items + [x])[..|items|] == items;
  }

  lemma MoreHasKey(open: Opener, key: KeyOf, k: Key, items: seq<Item>, x: Item)
    ensures Filter(PairHasKey(key, k), More(open, key, items, x))
            == if key(x.event) == Some(k) then Close(open, Lane(key, k, items), x) else []
  {
    var more := More(open, key, items, x);
    if more != [] {
      var k' := key(x.event).value;
      var lane := Lane(key, k', items);
      FilterMember(ItemHasKey(key, k'), items, lane[open(lane).value]);
    }
  }

  /** Seen through one key, the pairs are those of that key's items alone. */
  lemma {:induction false} ThroughLane(open: Opener, key: KeyOf, k: Key, items: seq<Item>)
    ensures Filter(PairHasKey(key, k), Emitted(open, key, items)) == Alone(open, Lane(key, k, items))
  {
    if items != [] {
      var init, x := items[..|items| - 1], items[|items| - 1];
      ThroughLane(open, key, k, init);
      assert items == init + [x];
      hide *;
      LaneSnoc(key, k, init, x);
      EmittedSnoc(open, key, init, x);
      EmittedSnoc(open, key, Lane(key, k, init), x);
      FilterConcat(PairHasKey(key, k), Emitted(open, key, init), More(open, key, init, x));
      MoreHasKey(open, key, k, init, x);
      assert Lane(key, k, init) + [] == Lane(key, k, init);
    }
  }

  /** The same for the sorted outcome. */
  lemma ThroughKey(open: Opener, key: KeyOf, le: Order, k: Key, starts: seq<Event>, ends: seq<Event>)
    ensures Filter(PairHasKey(key, k), Pairs(open, key, le, starts, ends))
            == StableSort(ByStart, Alone(open, Lane(key, k, Merged(le, starts, ends))))
  {
    ByStartPreorder();
    ThroughLane(open, key, k, Merged(le, starts, ends));
    FilterSort(ByStart, PairHasKey(key, k), Emitted(open, key, Merged(le, starts, ends)));
  }

  /** The opener points to starts. */
  ghost predicate OpensStarts(open: Opener) {
    forall lane: seq<Item> :: open(lane).Some? ==> open(lane).value < |lane| && !lane[open(lane).value].isEnd
  }

  /** Every pair joins a start and an end of one key that is not earlier, and tells the time between them. */
  ghost predicate Joins(key: KeyOf, items: seq<Item>, p: Pair) {
    && Item(false, p.start) in items && Item(true, p.end) in items
    && key(p.start).Some? && key(p.start) == key(p.end)
    && p.start.timestampNs <= p.end.timestampNs && p.latencyNs == p.end.timestampNs - p.start.timestampNs
  }

  lemma MoreJoins(open: Opener, key: KeyOf, items: seq<Item>, x: Item, p: Pair)
    requires OpensStarts(open) && p in More(open, key, items, x)
    ensures Joins(key, items + [x], p)
  {
    var k := key(x.event).value;
    var lane := Lane(key, k, items);
    var a := lane[open(lane).value];
    FilterMember(ItemHasKey(key, k), items, a);
    assert a == Item(false, p.start) && x == Item(true, p.end);
    assert a in items + [x] && x in items + [x];
  }

  lemma {:induction false} EmittedJoins(open: Opener, key: KeyOf, items: seq<Item>, p: Pair)
    requires OpensStarts(open) && p in Emitted(open, key, items)
    ensures Joins(key, items, p)
  {
    hide OpensStarts, More;
    var init, x := items[..|items| - 1], items[|items| - 1];
    assert items == init + [x];
    if p in Emitted(open, key, init) {
      EmittedJoins(open, key, init, p);
    } else {
      MoreJoins(open, key, init, x, p);
    }
  }

  lemma PairsJoin(open: Opener, key: KeyOf, le: Order, starts: seq<Event>, ends: seq<Event>, p: Pair)
    requires OpensStarts(open) && Preorder(le) && p in Pairs(open, key, le, starts, ends)
    ensures p.start in starts && p.end in ends && key(p.start).Some? && key(p.start) == key(p.end)
    ensures p.start.timestampNs <= p.end.timestampNs && p.latencyNs == p.end.timestampNs - p.start.timestampNs
  {
    hide OpensStarts, Preorder, Emitted, StableSort, Merged;
    var items := Merged(le, starts, ends);
    SortPermutes(ByStart, Emitted(open, key, items));
    EmittedJoins(open, key, items, p);
    MergedHolds(le, starts, ends);
  }

  // The duration window

  lemma {:induction false} EmittedEnds(open: Opener, key: KeyOf, items: seq<Item>, t: nat)
    requires forall x :: x in items ==> x.event.timestampNs <= t
    ensures forall p :: p in Emitted(open, key, items) ==> p.end.timestampNs <= t
  {
    if items != [] { EmittedEnds(open, key, items[..|items| - 1], t); }
  }

  lemma MoreLate(open: Opener, key: KeyOf, items: seq<Item>, x: Item, t: nat)
    requires x.event.timestampNs > t
    ensures Filter(EndsWithin(t), More(open, key, items, x)) == []
  {
    FilterNone(EndsWithin(t), More(open, key, items, x));
  }

  lemma {:induction false} EmittedWindow(open: Opener, key: KeyOf, items: seq<Item>, t: nat)
    requires Sorted(NotLater, items)
    ensures Emitted(open, key, Filter(ItemWithin(t), items)) == Filter(EndsWithin(t), Emitted(open, key, items))
  {
    if items != [] {
      var init, x := items[..|items| - 1], items[|items| - 1];
      assert items == init + [x];
      if x.event.timestampNs <= t {
        assert forall y :: y in items ==> NotLater(y, x);
        FilterAll(ItemWithin(t), items);
        EmittedEnds(open, key, items, t);
        hide Emitted, Filter;
        FilterAll(EndsWithin(t), Emitted(open, key, items));
      } else {
        EmittedWindow(open, key, init, t);
        FilterConcat(ItemWithin(t), init, [x]);
        FilterConcat(EndsWithin(t), Emitted(open, key, init), More(open, key, init, x));
        MoreLate(open, key, init, x, t);
        assert Filter(ItemWithin(t), [x]) == [];
        hide *;
        EmittedSnoc(open, key, init, x);
        assert Filter(ItemWithin(t), init) + [] == Filter(ItemWithin(t), init);
      }
    }
  }

  /** Cutting the inputs at a duration window keeps exactly the pairs that end inside it. */
  lemma WindowCommutes(open: Opener, key: KeyOf, le: Order, starts: seq<Event>, ends: seq<Event>, t: nat)
    requires Temporal(le)
    ensures Pairs(open, key, le, Filter(Within(t), starts), Filter(Within(t), ends))
            == Filter(EndsWithin(t), Pairs(open, key, le, starts, ends))
  {
    MergedWindow(le, starts, ends, t);
    MergedCounts(le, starts, ends);
    EmittedWindow(open, key, Merged(le, starts, ends), t);
    ByStartPreorder();
    FilterSort(ByStart, EndsWithin(t), Emitted(open, key, Merged(le, starts, ends)));
  }
}

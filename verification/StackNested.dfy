/** The stack-nested policy: each return closes the innermost open call of its thread. */
module StackNested {
  import opened Common
  import opened Events
  import opened Grouping
  import opened Sorting
  import opened Timeline

  /** The positions of the starts on the stack of a lane, innermost last. */
  function Open(lane: seq<Item>): (stack: seq<nat>) {
    if lane == [] then []
    else
      var init := lane[..|lane| - 1];
      if !lane[|lane| - 1].isEnd then Open(init) + [|init|]
      else if Open(init) == [] then []
      else Open(init)[..|Open(init)| - 1]
  }

  function Top(): Opener {
    (lane: seq<Item>) => if Open(lane) == [] then None else Some(Open(lane)[|Open(lane)| - 1])
  }

  function StackEmitted(starts: seq<Event>, ends: seq<Event>): (r: seq<Pair>) {
    Emitted(Top(), StackKey, Merged(ByBoundary, starts, ends))
  }

  function StackPairs(starts: seq<Event>, ends: seq<Event>): (r: seq<Pair>) {
    Timeline.Pairs(Top(), StackKey, ByBoundary, starts, ends)
  }

  // Balanced parentheses

  /** Starts minus ends strictly after position `i` and before `m`. */
  function Rise(lane: seq<Item>, i: nat, m: nat): (h: int)
    requires i < m <= |lane|
  {
    if m == i + 1 then 0 else Rise(lane, i, m - 1) + if lane[m - 1].isEnd then -1 else 1
  }

  /** What follows the start at `i`, before `n`, never closes it. */
  ghost predicate Unclosed(lane: seq<Item>, i: nat, n: nat)
    requires n <= |lane|
  {
    i < n && !lane[i].isEnd && forall m :: i < m <= n ==> Rise(lane, i, m) >= 0
  }

  /** The items between the start at `i` and the end at `j` are balanced: all that opened has closed,
      and nothing closed that had not opened. */
  ghost predicate Encloses(lane: seq<Item>, i: nat, j: nat) {
    j < |lane| && lane[j].isEnd && Unclosed(lane, i, j) && Rise(lane, i, j) == 0
  }

  lemma {:induction false} RiseSplit(lane: seq<Item>, i: nat, k: nat, m: nat)
    requires i < k < m <= |lane|
    ensures Rise(lane, i, m) == Rise(lane, i, k + 1) + Rise(lane, k, m)
  {
    if m > k + 1 { RiseSplit(lane, i, k, m - 1); }
  }

  lemma OpenNext(lane: seq<Item>, n: nat)
    requires n < |lane|
    ensures Open(lane[..n + 1]) == if !lane[n].isEnd then Open(lane[..n]) + [n]
                                   else if Open(lane[..n]) == [] then []
                                   else Open(lane[..n])[..|Open(lane[..n])| - 1]
  {
    assert lane[..n + 1][..n] == lane[..n];
  }

  ghost predicate Increasing(s: seq<nat>, bound: nat) {
    (forall p, q :: 0 <= p < q < |s| ==> s[p] < s[q]) && forall q :: 0 <= q < |s| ==> s[q] < bound
  }

  lemma {:induction false} OpenIncreasing(lane: seq<Item>, n: nat)
    requires n <= |lane|
    ensures Increasing(Open(lane[..n]), n)
  {
    if n > 0 {
      OpenIncreasing(lane, n - 1);
      OpenNext(lane, n - 1);
    }
  }

  /** A start on the stack has as many open starts above it as have opened and not closed since. */
  lemma {:induction false} OpenRise(lane: seq<Item>, n: nat, q: nat)
    requires n <= |lane| && q < |Open(lane[..n])|
    ensures var i := Open(lane[..n])[q];
      i < n && !lane[i].isEnd && Rise(lane, i, n) == |Open(lane[..n])| - 1 - q
  {
    OpenNext(lane, n - 1);
    OpenIncreasing(lane, n);
    if q < |Open(lane[..n - 1])| { OpenRise(lane, n - 1, q); }
  }

  /** The stack holds exactly the starts that nothing after them closes. */
  lemma {:induction false} OpenIffUnclosed(lane: seq<Item>, n: nat, i: nat)
    requires n <= |lane|
    ensures i in Open(lane[..n]) <==> Unclosed(lane, i, n)
  {
    if n > 0 {
      OpenIffUnclosed(lane, n - 1, i);
      OpenMember(lane, n - 1, i);
      if i < n - 1 {
        assert Unclosed(lane, i, n) <==> Unclosed(lane, i, n - 1) && Rise(lane, i, n) >= 0;
      }
    }
  }

  lemma OpenMember(lane: seq<Item>, n: nat, i: nat)
    requires n < |lane|
    ensures i in Open(lane[..n + 1]) <==> if i < n then i in Open(lane[..n]) && Rise(lane, i, n + 1) >= 0
                                          else i == n && !lane[n].isEnd
  {
    hide Open;
    var stack := Open(lane[..n]);
    OpenNext(lane, n);
    OpenIncreasing(lane, n);
    if i in stack {
      var q :| 0 <= q < |stack| && stack[q] == i;
      OpenRise(lane, n, q);
      if q < |stack| - 1 {
        assert stack[..|stack| - 1][q] == i;
      } else {
        assert i !in stack[..q];
      }
    }
  }

  /** An end closes a start if and only if everything between them is balanced. */
  lemma ClosesEnclosing(lane: seq<Item>, i: nat, j: nat)
    requires j < |lane| && lane[j].isEnd
    ensures Top()(lane[..j]) == Some(i) <==> Encloses(lane, i, j)
  {
    var stack := Open(lane[..j]);
    OpenIncreasing(lane, j);
    OpenIffUnclosed(lane, j, i);
    if i in stack {
      var q :| 0 <= q < |stack| && stack[q] == i;
      OpenRise(lane, j, q);
    }
  }

  /** Two pairs of one thread are nested or disjoint. */
  lemma NestedOrDisjoint(lane: seq<Item>, i: nat, j: nat, i': nat, j': nat)
    requires Encloses(lane, i, j) && Encloses(lane, i', j') && i < i' < j
    ensures j' < j
  {
    RiseSplit(lane, i, i', j);
    assert Rise(lane, i, i') >= 0;
    assert Rise(lane, i', j) < 0;
  }

  /** A start is closed at most once, and an end closes at most one start. */
  lemma PairedOnce(lane: seq<Item>, i: nat, j: nat, i': nat, j': nat)
    requires Encloses(lane, i, j) && Encloses(lane, i', j')
    ensures i == i' <==> j == j'
  {
    ClosesEnclosing(lane, i, j);
    ClosesEnclosing(lane, i', j');
    assert j < j' && i == i' ==> Rise(lane, i, j + 1) < 0;
    assert j' < j && i == i' ==> Rise(lane, i, j' + 1) < 0;
  }

  ghost predicate Joined(lane: seq<Item>, i: nat, j: nat, p: Pair) {
    Encloses(lane, i, j) && NotLater(lane[i], lane[j]) && p == Matched(lane[i].event, lane[j].event)
  }

  lemma CloseJoins(lane: seq<Item>, n: nat, p: Pair) returns (i: nat)
    requires n < |lane| && p in Close(Top(), lane[..n], lane[n])
    ensures Joined(lane, i, n, p)
  {
    hide Open, Rise, Unclosed;
    OpenIncreasing(lane, n);
    i := Top()(lane[..n]).value;
    ClosesEnclosing(lane, i, n);
  }

  lemma JoinedCloses(lane: seq<Item>, i: nat, n: nat, p: Pair)
    requires Joined(lane, i, n, p)
    ensures p in Close(Top(), lane[..n], lane[n])
  {
    hide Open, Rise;
    ClosesEnclosing(lane, i, n);
  }

  lemma AloneNext(lane: seq<Item>, n: nat)
    requires n < |lane|
    ensures Alone(Top(), lane[..n + 1]) == Alone(Top(), lane[..n]) + Close(Top(), lane[..n], lane[n])
  {
    assert lane[..n + 1] == lane[..n] + [lane[n]];
    EmittedSnoc(Top(), StackKey, lane[..n], lane[n]);
  }

  lemma {:induction false} AloneJoins(lane: seq<Item>, n: nat, p: Pair) returns (i: nat, j: nat)
    requires n <= |lane| && p in Alone(Top(), lane[..n])
    ensures Joined(lane, i, j, p)
  {
    hide Close, Top, Joined;
    AloneNext(lane, n - 1);
    if p in Alone(Top(), lane[..n - 1]) {
      i, j := AloneJoins(lane, n - 1, p);
    } else {
      j := n - 1;
      i := CloseJoins(lane, n - 1, p);
    }
  }

  lemma {:induction false} JoinedAlone(lane: seq<Item>, n: nat, i: nat, j: nat, p: Pair)
    requires j < n <= |lane| && Joined(lane, i, j, p)
    ensures p in Alone(Top(), lane[..n])
  {
    hide *;
    AloneNext(lane, n - 1);
    if j == n - 1 {
      JoinedCloses(lane, i, j, p);
    } else {
      JoinedAlone(lane, n - 1, i, j, p);
    }
  }

  /** The pairs of one thread are exactly the balanced ones. */
  lemma AloneIsBalanced(lane: seq<Item>, p: Pair)
    ensures p in Alone(Top(), lane) <==> exists i: nat, j: nat :: Joined(lane, i, j, p)
  {
    hide Alone, Top, Unclosed, Rise;
    assert lane[..|lane|] == lane;
    if p in Alone(Top(), lane) {
      var i, j := AloneJoins(lane, |lane|, p);
    } else if i: nat, j: nat :| Joined(lane, i, j, p) {
      JoinedAlone(lane, |lane|, i, j, p);
    }
  }

  /** Seen through one thread, the outcome holds the balanced pairs of that thread's items, and no others. */
  lemma PairsAreBalanced(starts: seq<Event>, ends: seq<Event>, k: Key, p: Pair)
    ensures var lane := Lane(StackKey, k, Merged(ByBoundary, starts, ends));
      p in StackPairs(starts, ends) && PairHasKey(StackKey, k)(p)
      <==> exists i: nat, j: nat :: Joined(lane, i, j, p)
  {
    var items := Merged(ByBoundary, starts, ends);
    var lane := Lane(StackKey, k, items);
    BothTemporal();
    MergedCounts(ByBoundary, starts, ends);
    FilterSorted(NotLater, ItemHasKey(StackKey, k), items);
    Timeline.ThroughKey(Top(), StackKey, ByBoundary, k, starts, ends);
    FilterMember(PairHasKey(StackKey, k), StackPairs(starts, ends), p);
    SortPermutes(ByStart, Alone(Top(), lane));
    AloneIsBalanced(lane, p);
  }

  // The pairs by position

  /** A call and the return that closes it, by their positions in a lane. */
  datatype Link = Link(start: nat, end: nat)

  function Links(lane: seq<Item>, n: nat): (r: seq<Link>)
    requires n <= |lane|
  {
    if n == 0 then []
    else
      var top := Top()(lane[..n - 1]);
      Links(lane, n - 1) + if lane[n - 1].isEnd && top.Some? then [Link(top.value, n - 1)] else []
  }

  /** The links are the enclosing pairs, each once, in the order of their ends. */
  lemma {:induction false} LinksEnclose(lane: seq<Item>, n: nat, l: Link)
    requires n <= |lane|
    ensures l in Links(lane, n) <==> l.end < n && Encloses(lane, l.start, l.end)
  {
    hide Encloses, Top;
    if n > 0 {
      LinksEnclose(lane, n - 1, l);
      if lane[n - 1].isEnd { ClosesEnclosing(lane, l.start, n - 1); } else { NotClosing(lane, l.start, n - 1); }
    }
  }

  lemma NotClosing(lane: seq<Item>, i: nat, j: nat)
    requires j < |lane| && !lane[j].isEnd
    ensures !Encloses(lane, i, j)
  {
  }

  lemma {:induction false} LinksOrdered(lane: seq<Item>, n: nat)
    requires n <= |lane|
    ensures forall p, q :: 0 <= p < q < |Links(lane, n)| ==> Links(lane, n)[p].end < Links(lane, n)[q].end
    ensures forall p :: 0 <= p < |Links(lane, n)| ==> Links(lane, n)[p].end < n
  {
    hide Top;
    if n > 0 { LinksOrdered(lane, n - 1); }
  }

  ghost predicate PairAt(lane: seq<Item>, l: Link, p: Pair) {
    && l.start < |lane| && l.end < |lane| && NotLater(lane[l.start], lane[l.end])
    && p == Matched(lane[l.start].event, lane[l.end].event)
  }

  lemma CloseIsLink(lane: seq<Item>, n: nat)
    requires n < |lane| && Sorted(NotLater, lane)
    ensures var top := Top()(lane[..n]);
      var more := Close(Top(), lane[..n], lane[n]);
      if lane[n].isEnd && top.Some? then |more| == 1 && PairAt(lane, Link(top.value, n), more[0]) else more == []
  {
    hide Open;
    OpenIncreasing(lane, n);
    var top := Top()(lane[..n]);
    if top.Some? { assert NotLater(lane[top.value], lane[n]); }
  }

  /** The pairs of one thread are those at its links, one for one. */
  lemma {:induction false} AloneIsLinks(lane: seq<Item>, n: nat)
    requires n <= |lane| && Sorted(NotLater, lane)
    ensures |Alone(Top(), lane[..n])| == |Links(lane, n)|
    ensures forall q :: 0 <= q < |Links(lane, n)| ==> PairAt(lane, Links(lane, n)[q], Alone(Top(), lane[..n])[q])
  {
    hide Top, Sorted, PairAt, Close;
    if n > 0 {
      AloneIsLinks(lane, n - 1);
      AloneNext(lane, n - 1);
      CloseIsLink(lane, n - 1);
    }
  }

  /** Seen through one thread, the outcome is the pairs at its enclosing positions, sorted by start. */
  lemma PairsAtLinks(starts: seq<Event>, ends: seq<Event>, k: Key) returns (alone: seq<Pair>)
    ensures var lane := Lane(StackKey, k, Merged(ByBoundary, starts, ends));
      var links := Links(lane, |lane|);
      && Filter(PairHasKey(StackKey, k), StackPairs(starts, ends)) == StableSort(ByStart, alone)
      && |alone| == |links|
      && (forall q :: 0 <= q < |links| ==> PairAt(lane, links[q], alone[q]))
      && (forall l :: l in links <==> Encloses(lane, l.start, l.end))
      && (forall p, q :: 0 <= p < q < |links| ==> links[p].end < links[q].end)
  {
    hide Top, Encloses, Links, PairAt, Sorted, StackKey, Alone;
    var lane := ThreadLane(starts, ends, k);
    alone := Alone(Top(), lane);
    Timeline.ThroughKey(Top(), StackKey, ByBoundary, k, starts, ends);
    AloneIsLinks(lane, |lane|);
    assert lane[..|lane|] == lane;
    LinksOrdered(lane, |lane|);
    forall l ensures l in Links(lane, |lane|) <==> Encloses(lane, l.start, l.end) {
      LinksEnclose(lane, |lane|, l);
      EnclosesInside(lane, l);
    }
  }

  lemma EnclosesInside(lane: seq<Item>, l: Link)
    ensures Encloses(lane, l.start, l.end) ==> l.end < |lane|
  {
  }

  lemma ThreadLane(starts: seq<Event>, ends: seq<Event>, k: Key) returns (lane: seq<Item>)
    ensures lane == Lane(StackKey, k, Merged(ByBoundary, starts, ends)) && Sorted(NotLater, lane)
  {
    lane := Lane(StackKey, k, Merged(ByBoundary, starts, ends));
    BothTemporal();
    MergedCounts(ByBoundary, starts, ends);
    FilterSorted(NotLater, ItemHasKey(StackKey, k), Merged(ByBoundary, starts, ends));
  }

  // What is left over

  /** The calls of a lane that nothing closes. */
  ghost function UnclosedCalls(lane: seq<Item>): (r: set<nat>) {
    set i: nat | i < |lane| && Unclosed(lane, i, |lane|)
  }

  /** A return that no call is open for. */
  ghost predicate Stray(lane: seq<Item>, j: nat) {
    j < |lane| && lane[j].isEnd && forall i: nat :: !Encloses(lane, i, j)
  }

  ghost function StrayReturns(lane: seq<Item>, n: nat): (r: set<nat>) { set j: nat | j < n && Stray(lane, j) }

  function Positions(s: seq<nat>): (r: set<nat>) { set x | x in s }

  lemma {:induction false} DistinctSize(s: seq<nat>, bound: nat)
    requires Increasing(s, bound)
    ensures |Positions(s)| == |s|
  {
    if s != [] {
      var init, last := s[..|s| - 1], s[|s| - 1];
      DistinctSize(init, bound);
      assert s == init + [last];
      assert last !in init by { assert forall i :: 0 <= i < |init| ==> s[i] < s[|s| - 1]; }
      assert Positions(s) == Positions(init) + {last};
      hide Increasing;
    }
  }

  lemma UnclosedSize(lane: seq<Item>)
    ensures |UnclosedCalls(lane)| == |Open(lane)|
  {
    hide Open, Unclosed;
    assert lane[..|lane|] == lane;
    OpenIncreasing(lane, |lane|);
    DistinctSize(Open(lane), |lane|);
    forall i: nat ensures i in Open(lane) <==> i < |lane| && Unclosed(lane, i, |lane|) {
      OpenIffUnclosed(lane, |lane|, i);
      InsideLane(lane, i);
    }
    assert UnclosedCalls(lane) == Positions(Open(lane));
  }

  lemma InsideLane(lane: seq<Item>, i: nat)
    ensures Unclosed(lane, i, |lane|) ==> i < |lane|
  {
  }

  /** In one lane every call is linked or unclosed. */
  lemma {:induction false} CallsAccounted(lane: seq<Item>, n: nat)
    requires n <= |lane|
    ensures |Filter(IsStart(), lane[..n])| == |Links(lane, n)| + |Open(lane[..n])|
  {
    hide Open, Filter;
    if n == 0 {
      assert lane[..0] == [];
      EmptyLane();
    } else {
      CallsAccounted(lane, n - 1);
      OpenNext(lane, n - 1);
      assert lane[..n] == lane[..n - 1] + [lane[n - 1]];
      CountNext(lane[..n - 1], lane[n - 1]);
    }
  }

  lemma EmptyLane()
    ensures Open([]) == [] && Filter(IsStart(), []) == [] && Filter(IsEnd(), []) == []
  {
  }

  lemma StrayNext(lane: seq<Item>, n: nat)
    requires n < |lane|
    ensures StrayReturns(lane, n + 1) == StrayReturns(lane, n) + if Stray(lane, n) then {n} else {}
    ensures Stray(lane, n) <==> lane[n].isEnd && Top()(lane[..n]).None?
  {
    hide Open;
    if lane[n].isEnd {
      forall i: nat ensures Top()(lane[..n]) == Some(i) <==> Encloses(lane, i, n) { ClosesEnclosing(lane, i, n); }
      hide Encloses;
      if Top()(lane[..n]).Some? { assert Encloses(lane, Top()(lane[..n]).value, n); }
    }
  }

  /** And every return is linked or stray. */
  lemma {:induction false} ReturnsAccounted(lane: seq<Item>, n: nat)
    requires n <= |lane|
    ensures |Filter(IsEnd(), lane[..n])| == |Links(lane, n)| + |StrayReturns(lane, n)|
  {
    hide Top, Filter, Stray;
    if n == 0 {
      assert lane[..0] == [];
      EmptyLane();
      assert StrayReturns(lane, 0) == {};
    } else {
      ReturnsAccounted(lane, n - 1);
      StrayNext(lane, n - 1);
      assert lane[..n] == lane[..n - 1] + [lane[n - 1]];
      CountNext(lane[..n - 1], lane[n - 1]);
    }
  }

  // Summing over the threads

  ghost function SumOver(keys: seq<Key>, g: Key -> nat): (n: nat) {
    if keys == [] then 0 else g(keys[0]) + SumOver(keys[1..], g)
  }

  lemma {:induction false} SumAdds(keys: seq<Key>, a: Key -> nat, b: Key -> nat, c: Key -> nat)
    requires forall k :: k in keys ==> a(k) == b(k) + c(k)
    ensures SumOver(keys, a) == SumOver(keys, b) + SumOver(keys, c)
  {
    if keys != [] { SumAdds(keys[1..], a, b, c); }
  }

  ghost function IsKey(k: Key): Key -> nat { (x: Key) => if x == k then 1 else 0 }

  lemma {:induction false} SumOne(keys: seq<Key>, k: Key)
    requires Distinct(keys)
    ensures SumOver(keys, IsKey(k)) == if k in keys then 1 else 0
  {
    if keys != [] { SumOne(keys[1..], k); }
  }

  function InClass<T>(key: T -> Key, k: Key): T -> bool { (x: T) => key(x) == k }

  ghost function ClassSize<T(!new)>(key: T -> Key, s: seq<T>): Key -> nat { (k: Key) => |Filter(InClass(key, k), s)| }

  /** Counting by class counts everything. */
  lemma {:induction false} SumClasses<T(!new)>(keys: seq<Key>, key: T -> Key, s: seq<T>)
    requires Distinct(keys) && forall x :: x in s ==> key(x) in keys
    ensures SumOver(keys, ClassSize(key, s)) == |s|
    decreases |s|
  {
    if s == [] {
      SumNothing(keys, ClassSize(key, s));
    } else {
      SumClasses(keys, key, s[1..]);
      SumOne(keys, key(s[0]));
      SumAdds(keys, ClassSize(key, s), IsKey(key(s[0])), ClassSize(key, s[1..]));
    }
  }

  lemma {:induction false} SumNothing(keys: seq<Key>, g: Key -> nat)
    requires forall k :: k in keys ==> g(k) == 0
    ensures SumOver(keys, g) == 0
  {
    if keys != [] { SumNothing(keys[1..], g); }
  }

  lemma {:induction false} SumAgrees(keys: seq<Key>, a: Key -> nat, b: Key -> nat)
    requires forall k :: k in keys ==> a(k) == b(k)
    ensures SumOver(keys, a) == SumOver(keys, b)
  {
    if keys != [] { SumAgrees(keys[1..], a, b); }
  }

  /** The threads of a capture. */
  function Threads(starts: seq<Event>, ends: seq<Event>): (keys: seq<Key>) { Keys(StackKey, starts + ends) }

  ghost function CallsLeft(items: seq<Item>): Key -> nat { (k: Key) => |UnclosedCalls(Lane(StackKey, k, items))| }

  ghost function ReturnsLeft(items: seq<Item>): Key -> nat {
    (k: Key) => var lane := Lane(StackKey, k, items); |StrayReturns(lane, |lane|)|
  }

  ghost function LinksOf(items: seq<Item>): Key -> nat {
    (k: Key) => var lane := Lane(StackKey, k, items); |Links(lane, |lane|)|
  }

  function ThreadOf(): Item -> Key { (x: Item) => [x.event.pid, x.event.tid] }

  function PairThread(): Pair -> Key { (p: Pair) => [p.start.pid, p.start.tid] }

  lemma LaneClass(items: seq<Item>, p: Item -> bool, k: Key)
    ensures Filter(InClass(ThreadOf(), k), Filter(p, items)) == Filter(p, Lane(StackKey, k, items))
  {
    FilterTwice(InClass(ThreadOf(), k), p, items);
    FilterAgree(InClass(ThreadOf(), k), ItemHasKey(StackKey, k), items);
  }

  lemma MergedThreads(starts: seq<Event>, ends: seq<Event>, x: Item)
    requires x in Merged(ByBoundary, starts, ends)
    ensures ThreadOf()(x) in Threads(starts, ends) && x.event in starts + ends
  {
    var all := Map(AsStart(), starts) + Map(AsEnd(), ends);
    SortPermutes(ByBoundary, all);
    var i :| 0 <= i < |all| && all[i] == x;
    KeysExact(StackKey, starts + ends);
    assert x.event in starts + ends by {
      if i < |starts| { assert x.event == starts[i]; } else { assert x.event == ends[i - |starts|]; }
    }
    assert StackKey(x.event) == Some(ThreadOf()(x));
  }

  lemma {:induction false} EmittedThreads(items: seq<Item>, p: Pair)
    requires p in Emitted(Top(), StackKey, items)
    ensures StackKey(p.start) == StackKey(p.end) && exists x :: x in items && x.event == p.start
  {
    hide Open;
    var init, x := items[..|items| - 1], items[|items| - 1];
    if p in Emitted(Top(), StackKey, init) {
      EmittedThreads(init, p);
    } else {
      var k := StackKey(x.event).value;
      var lane := Lane(StackKey, k, init);
      var y := lane[Top()(lane).value];
      FilterMember(ItemHasKey(StackKey, k), init, y);
      assert y in items;
    }
  }

  lemma PairClass(items: seq<Item>, k: Key)
    ensures Filter(InClass(PairThread(), k), Emitted(Top(), StackKey, items))
            == Alone(Top(), Lane(StackKey, k, items))
  {
    var pairs := Emitted(Top(), StackKey, items);
    forall p | p in pairs ensures InClass(PairThread(), k)(p) == PairHasKey(StackKey, k)(p) {
      EmittedThreads(items, p);
    }
    FilterAgree(InClass(PairThread(), k), PairHasKey(StackKey, k), pairs);
    ThroughLane(Top(), StackKey, k, items);
  }

  lemma PairsBySum(starts: seq<Event>, ends: seq<Event>)
    ensures |StackEmitted(starts, ends)| == SumOver(Threads(starts, ends), LinksOf(Merged(ByBoundary, starts, ends)))
  {
    hide Open, Alone, Emitted, Links, Top, Keys, Merged, Sorted;
    var items := Merged(ByBoundary, starts, ends);
    var keys := Threads(starts, ends);
    KeysExact(StackKey, starts + ends);
    var pairs := StackEmitted(starts, ends);
    forall p | p in pairs ensures PairThread()(p) in keys {
      EmittedThreads(items, p);
      var x :| x in items && x.event == p.start;
      MergedThreads(starts, ends, x);
    }
    SumClasses(keys, PairThread(), pairs);
    forall k | k in keys ensures ClassSize(PairThread(), pairs)(k) == LinksOf(items)(k) {
      PairClass(items, k);
      var lane := ThreadLane(starts, ends, k);
      AloneIsLinks(lane, |lane|);
      assert lane[..|lane|] == lane;
    }
    SumAgrees(keys, ClassSize(PairThread(), pairs), LinksOf(items));
  }

  lemma ItemsBySum(starts: seq<Event>, ends: seq<Event>, p: Item -> bool)
    ensures var items := Merged(ByBoundary, starts, ends);
      |Filter(p, items)| == SumOver(Threads(starts, ends), (k: Key) => |Filter(p, Lane(StackKey, k, items))|)
  {
    var items := Merged(ByBoundary, starts, ends);
    var keys := Threads(starts, ends);
    KeysExact(StackKey, starts + ends);
    hide Keys, Merged;
    forall x | x in Filter(p, items) ensures ThreadOf()(x) in keys {
      FilterMember(p, items, x);
      MergedThreads(starts, ends, x);
    }
    SumClasses(keys, ThreadOf(), Filter(p, items));
    forall k ensures ClassSize(ThreadOf(), Filter(p, items))(k) == |Filter(p, Lane(StackKey, k, items))| {
      LaneClass(items, p, k);
    }
    SumAgrees(keys, ClassSize(ThreadOf(), Filter(p, items)), (k: Key) => |Filter(p, Lane(StackKey, k, items))|);
  }

  /** The pairs and the unclosed calls of all threads are the starts; the pairs and the stray returns are the ends. */
  lemma Unbalanced(starts: seq<Event>, ends: seq<Event>)
    ensures var items := Merged(ByBoundary, starts, ends);
      && |StackEmitted(starts, ends)| + SumOver(Threads(starts, ends), CallsLeft(items)) == |starts|
      && |StackEmitted(starts, ends)| + SumOver(Threads(starts, ends), ReturnsLeft(items)) == |ends|
  {
    hide Open, Links, Top, Threads, Merged, Filter, UnclosedCalls, StrayReturns, StackEmitted, Lane, Sorted;
    var items := Merged(ByBoundary, starts, ends);
    var keys := Threads(starts, ends);
    BothTemporal();
    MergedCounts(ByBoundary, starts, ends);
    PairsBySum(starts, ends);
    ItemsBySum(starts, ends, IsStart());
    ItemsBySum(starts, ends, IsEnd());
    var s := (k: Key) => |Filter(IsStart(), Lane(StackKey, k, items))|;
    var e := (k: Key) => |Filter(IsEnd(), Lane(StackKey, k, items))|;
    forall k ensures s(k) == LinksOf(items)(k) + CallsLeft(items)(k) && e(k) == LinksOf(items)(k) + ReturnsLeft(items)(k) {
      var lane := Lane(StackKey, k, items);
      CallsAccounted(lane, |lane|);
      ReturnsAccounted(lane, |lane|);
      UnclosedSize(lane);
      assert lane[..|lane|] == lane;
    }
    SumAdds(keys, s, LinksOf(items), CallsLeft(items));
    SumAdds(keys, e, LinksOf(items), ReturnsLeft(items));
  }

  /** Cutting the inputs at a duration window keeps exactly the pairs that end inside it. */
  lemma StackWindow(starts: seq<Event>, ends: seq<Event>, t: nat)
    ensures StackPairs(Filter(Within(t), starts), Filter(Within(t), ends))
            == Filter(EndsWithin(t), StackPairs(starts, ends))
  {
    BothTemporal();
    Timeline.WindowCommutes(Top(), StackKey, ByBoundary, starts, ends, t);
  }

  // The replay

  /** `stacks` holds the open starts of one thread. */
  ghost predicate StackIn(stacks: map<Key, seq<Event>>, k: Key, lane: seq<Item>) {
    var stack := if k in stacks then stacks[k] else [];
    && |stack| == |Open(lane)|
    && (forall q :: 0 <= q < |stack| ==> Open(lane)[q] < |lane| && stack[q] == lane[Open(lane)[q]].event)
  }

  ghost predicate Stacks(stacks: map<Key, seq<Event>>, items: seq<Item>) {
    forall k :: StackIn(stacks, k, Lane(StackKey, k, items))
  }

  function Depth(stacks: map<Key, seq<Event>>, k: Key): (n: nat) { if k in stacks then |stacks[k]| else 0 }

  /** The number of starts on all stacks. */
  function Total(keys: seq<Key>, stacks: map<Key, seq<Event>>): (n: nat) {
    if keys == [] then 0 else Depth(stacks, keys[0]) + Total(keys[1..], stacks)
  }

  lemma {:induction false} TotalUpdate(keys: seq<Key>, stacks: map<Key, seq<Event>>, k: Key, stack: seq<Event>)
    requires Distinct(keys)
    ensures Total(keys, stacks[k := stack])
            == Total(keys, stacks) + if k in keys then |stack| - Depth(stacks, k) else 0
  {
    if keys != [] { TotalUpdate(keys[1..], stacks, k, stack); }
  }

  lemma {:induction false} TotalSnoc(keys: seq<Key>, k: Key, stacks: map<Key, seq<Event>>)
    ensures Total(keys + [k], stacks) == Total(keys, stacks) + Depth(stacks, k)
  {
    if keys == [] {
      assert keys + [k] == [k];
    } else {
      assert (keys + [k])[1..] == keys[1..] + [k];
      TotalSnoc(keys[1..], k, stacks);
    }
  }

  lemma LaneOpenNext(k: Key, items: seq<Item>, x: Item)
    ensures StackKey(x.event) != Some(k) ==> Lane(StackKey, k, items + [x]) == Lane(StackKey, k, items)
    ensures StackKey(x.event) == Some(k) ==> Lane(StackKey, k, items + [x]) == Lane(StackKey, k, items) + [x]
  {
    LaneSnoc(StackKey, k, items, x);
  }

  lemma StackInNext(stacks: map<Key, seq<Event>>, k: Key, lane: seq<Item>, x: Item)
    requires StackIn(stacks, k, lane)
    ensures var stack := if k in stacks then stacks[k] else [];
      && (!x.isEnd ==> StackIn(stacks[k := stack + [x.event]], k, lane + [x]))
      && (x.isEnd && stack == [] ==> StackIn(stacks, k, lane + [x]))
      && (x.isEnd && stack != [] ==> StackIn(stacks[k := stack[..|stack| - 1]], k, lane + [x]))
  {
    assert (lane + [x])[..|lane|] == lane && (lane + [x])[..|lane| + 1] == lane + [x];
    OpenNext(lane + [x], |lane|);
    hide Open;
  }

  lemma StackInKeep(stacks: map<Key, seq<Event>>, k: Key, stack: seq<Event>, k': Key, lane: seq<Item>)
    requires StackIn(stacks, k', lane) && k' != k
    ensures StackIn(stacks[k := stack], k', lane)
  {
  }

  /** The stacks after a start, and after an end. */
  lemma StacksNext(stacks: map<Key, seq<Event>>, items: seq<Item>, x: Item, k: Key)
    requires Stacks(stacks, items) && StackKey(x.event) == Some(k)
    ensures var stack := if k in stacks then stacks[k] else [];
      && (!x.isEnd ==> Stacks(stacks[k := stack + [x.event]], items + [x]))
      && (x.isEnd && stack == [] ==> Stacks(stacks, items + [x]))
      && (x.isEnd && stack != [] ==> Stacks(stacks[k := stack[..|stack| - 1]], items + [x]))
  {
    hide StackIn, Lane, StackKey;
    var stack := if k in stacks then stacks[k] else [];
    forall k' ensures
      && (!x.isEnd ==> StackIn(stacks[k := stack + [x.event]], k', Lane(StackKey, k', items + [x])))
      && (x.isEnd && stack == [] ==> StackIn(stacks, k', Lane(StackKey, k', items + [x])))
      && (x.isEnd && stack != [] ==> StackIn(stacks[k := stack[..|stack| - 1]], k', Lane(StackKey, k', items + [x])))
    {
      LaneOpenNext(k', items, x);
      if k' == k {
        StackInNext(stacks, k, Lane(StackKey, k, items), x);
      } else {
        StackInKeep(stacks, k, stack + [x.event], k', Lane(StackKey, k', items));
        if stack != [] { StackInKeep(stacks, k, stack[..|stack| - 1], k', Lane(StackKey, k', items)); }
      }
    }
  }

  lemma MoreIsTop(stacks: map<Key, seq<Event>>, items: seq<Item>, x: Item, k: Key)
    requires Sorted(NotLater, items + [x]) && Stacks(stacks, items) && StackKey(x.event) == Some(k)
    ensures var stack := if k in stacks then stacks[k] else [];
      && (stack != [] ==> stack[|stack| - 1].timestampNs <= x.event.timestampNs)
      && More(Top(), StackKey, items, x)
         == if x.isEnd && stack != []
            then [Pair(stack[|stack| - 1], x.event, x.event.timestampNs - stack[|stack| - 1].timestampNs)]
            else []
  {
    var lane := Lane(StackKey, k, items);
    assert StackIn(stacks, k, lane);
    hide Open;
    var stack := if k in stacks then stacks[k] else [];
    if stack != [] {
      var y := lane[Open(lane)[|stack| - 1]];
      FilterMember(ItemHasKey(StackKey, k), items, y);
      var j :| 0 <= j < |items| && items[j] == y;
      assert NotLater((items + [x])[j], (items + [x])[|items|]);
    }
  }

  datatype Progress = Progress(stacks: map<Key, seq<Event>>, keys: seq<Key>, emitted: seq<Pair>, unmatchedEnd: nat)

  /** `items` have been replayed; the starts and the ends counted so far add up. */
  ghost predicate Replayed(items: seq<Item>, p: Progress) {
    && p.emitted == Emitted(Top(), StackKey, items)
    && Stacks(p.stacks, items)
    && Distinct(p.keys) && (forall k :: k in p.keys <==> k in p.stacks)
    && |Filter(IsStart(), items)| == |p.emitted| + Total(p.keys, p.stacks)
    && |Filter(IsEnd(), items)| == |p.emitted| + p.unmatchedEnd
  }

  lemma Begin()
    ensures Replayed([], Progress(map[], [], [], 0))
  {
  }

  lemma NextStart(items: seq<Item>, x: Item, p: Progress, k: Key)
    requires Sorted(NotLater, items + [x]) && Replayed(items, p) && StackKey(x.event) == Some(k) && !x.isEnd
    ensures var stack := if k in p.stacks then p.stacks[k] else [];
      Replayed(items + [x], p.(stacks := p.stacks[k := stack + [x.event]], keys := AddKey(p.keys, Some(k))))
  {
    hide Stacks, Emitted, More, Filter, Top, Sorted, StackKey, Total;
    var stack := if k in p.stacks then p.stacks[k] else [];
    StacksNext(p.stacks, items, x, k);
    MoreIsTop(p.stacks, items, x, k);
    EmittedSnoc(Top(), StackKey, items, x);
    CountNext(items, x);
    TotalUpdate(p.keys, p.stacks, k, stack + [x.event]);
    TotalSnoc(p.keys, k, p.stacks[k := stack + [x.event]]);
  }

  lemma NextStray(items: seq<Item>, x: Item, p: Progress, k: Key)
    requires Sorted(NotLater, items + [x]) && Replayed(items, p) && StackKey(x.event) == Some(k) && x.isEnd
    requires k !in p.stacks || p.stacks[k] == []
    ensures Replayed(items + [x], p.(unmatchedEnd := p.unmatchedEnd + 1))
  {
    hide Stacks, Emitted, More, Filter, Top, Sorted, StackKey, Total, Distinct;
    StacksNext(p.stacks, items, x, k);
    MoreIsTop(p.stacks, items, x, k);
    EmittedSnoc(Top(), StackKey, items, x);
    CountNext(items, x);
  }

  lemma NextReturn(items: seq<Item>, x: Item, p: Progress, k: Key)
    requires Sorted(NotLater, items + [x]) && Replayed(items, p) && StackKey(x.event) == Some(k) && x.isEnd
    requires k in p.stacks && p.stacks[k] != []
    ensures var stack := p.stacks[k];
      var start := stack[|stack| - 1];
      && start.timestampNs <= x.event.timestampNs
      && Replayed(items + [x],
           p.(stacks := p.stacks[k := stack[..|stack| - 1]],
              emitted := p.emitted + [Pair(start, x.event, x.event.timestampNs - start.timestampNs)]))
  {
    hide Stacks, Emitted, More, Filter, Top, Sorted, StackKey, Total, Distinct;
    var stack := p.stacks[k];
    StacksNext(p.stacks, items, x, k);
    MoreIsTop(p.stacks, items, x, k);
    EmittedSnoc(Top(), StackKey, items, x);
    CountNext(items, x);
    TotalUpdate(p.keys, p.stacks, k, stack[..|stack| - 1]);
  }

  lemma Finish(items: seq<Item>, p: Progress)
    requires Replayed(items, p)
    ensures p.emitted == Emitted(Top(), StackKey, items)
    ensures |Filter(IsStart(), items)| == |p.emitted| + Total(p.keys, p.stacks)
    ensures |Filter(IsEnd(), items)| == |p.emitted| + p.unmatchedEnd
    ensures Distinct(p.keys) && forall k :: k in p.keys <==> k in p.stacks
  {
  }

  lemma LimitedSnoc(emitted: seq<Pair>, p: Pair, limit: Option<nat>)
    ensures Limited(emitted + [p], limit)
            == if limit.None? || |Limited(emitted, limit)| < limit.value then Limited(emitted, limit) + [p]
               else Limited(emitted, limit)
  {
  }

  lemma KnownKeys(items: seq<Item>, p: Progress)
    requires Replayed(items, p)
    ensures forall k :: k in p.keys <==> k in p.stacks
  {
  }

  /** The loop over the timeline; a pair is kept only while the limit allows it. */
  method Replay(items: seq<Item>, limit: Option<nat>) returns (pairs: seq<Pair>, unmatchedStart: nat, unmatchedEnd: nat)
    requires Sorted(NotLater, items)
    ensures pairs == Limited(Emitted(Top(), StackKey, items), limit)
    ensures |Filter(IsStart(), items)| == |Emitted(Top(), StackKey, items)| + unmatchedStart
    ensures |Filter(IsEnd(), items)| == |Emitted(Top(), StackKey, items)| + unmatchedEnd
  {
    hide *;
    var stacks: map<Key, seq<Event>>, keys: seq<Key> := map[], [];
    pairs, unmatchedEnd := [], 0;
    ghost var emitted: seq<Pair> := [];
    Begin();
    assert Limited([], limit) == [] by { LimitedEmpty(limit); }
    for i := 0 to |items|
      invariant Replayed(items[..i], Progress(stacks, keys, emitted, unmatchedEnd))
      invariant pairs == Limited(emitted, limit)
    {
      var x := items[i];
      ghost var p := Progress(stacks, keys, emitted, unmatchedEnd);
      assert items[..i + 1] == items[..i] + [x];
      SortedParts(items, i + 1);
      KnownKeys(items[..i], p);
      var k := [x.event.pid, x.event.tid];
      KeyOfItem(x);
      if !x.isEnd {
        NextStart(items[..i], x, p, k);
        keys := AddKey(keys, Some(k));
        stacks := stacks[k := (if k in stacks then stacks[k] else []) + [x.event]];
      } else {
        if k in stacks && stacks[k] != [] {
          NextReturn(items[..i], x, p, k);
          var stack := stacks[k];
          var start := stack[|stack| - 1];
          stacks := stacks[k := stack[..|stack| - 1]];
          ghost var pair := Pair(start, x.event, x.event.timestampNs - start.timestampNs);
          LimitedSnoc(emitted, pair, limit);
          if limit.None? || |pairs| < limit.value {
            pairs := pairs + [Pair(start, x.event, x.event.timestampNs - start.timestampNs)];
          }
          emitted := emitted + [pair];
        } else {
          NextStray(items[..i], x, p, k);
          unmatchedEnd := unmatchedEnd + 1;
        }
      }
    }
    assert items[..|items|] == items;
    Finish(items, Progress(stacks, keys, emitted, unmatchedEnd));
    unmatchedStart := SumDepths(keys, stacks);
  }

  lemma LimitedEmpty(limit: Option<nat>)
    ensures Limited([], limit) == []
  {
  }

  lemma KeyOfItem(x: Item)
    ensures StackKey(x.event) == Some([x.event.pid, x.event.tid])
  {
  }

  method SumDepths(keys: seq<Key>, stacks: map<Key, seq<Event>>) returns (n: nat)
    requires forall k :: k in keys ==> k in stacks
    ensures n == Total(keys, stacks)
  {
    n := 0;
    for i := 0 to |keys|
      invariant n == Total(keys[..i], stacks)
    {
      assert keys[..i + 1] == keys[..i] + [keys[i]];
      TotalSnoc(keys[..i], keys[i], stacks);
      n := n + |stacks[keys[i]]|;
    }
    assert keys[..|keys|] == keys;
  }

  /** The unmatched counts are the unclosed calls and the stray returns of all threads, whatever the limit, which
      cuts the pairs in the order of their ends. */
  method Correlate(starts: seq<Event>, ends: seq<Event>, limit: Option<nat>) returns (o: Outcome)
    ensures o.pairs == StableSort(ByStart, Limited(StackEmitted(starts, ends), limit))
    ensures limit.None? ==> o.pairs == StackPairs(starts, ends)
    ensures |StackEmitted(starts, ends)| + o.unmatchedStart == |starts|
    ensures |StackEmitted(starts, ends)| + o.unmatchedEnd == |ends|
    ensures o.unmatchedStart == SumOver(Threads(starts, ends), CallsLeft(Merged(ByBoundary, starts, ends)))
    ensures o.unmatchedEnd == SumOver(Threads(starts, ends), ReturnsLeft(Merged(ByBoundary, starts, ends)))
    ensures o.ambiguous == 0
  {
    hide Filter, Merged, Emitted, Top, ByBoundary, Sorted, SumOver, CallsLeft, ReturnsLeft, Threads;
    BothTemporal();
    MergedCounts(ByBoundary, starts, ends);
    Unbalanced(starts, ends);
    var pairs, unmatchedStart, unmatchedEnd := Replay(Merged(ByBoundary, starts, ends), limit);
    o := Outcome(StableSort(ByStart, pairs), unmatchedStart, unmatchedEnd, 0);
  }
}

/** The nearest policy: each start takes the closest end that is still available, found in an
    ordered map from timestamps to buckets of ends.  The reference is a scan of the list of the
    ends that are still available.
 */
module Nearest {
  import opened Common
  import opened Events
  import opened Sorting

  function Distance(a: nat, b: nat): (d: nat) { if a <= b then b - a else a - b }

  /** Whether an end at time `x` is preferred to one at time `y`: closer, or as close and later. */
  predicate Preferred(t: nat, x: nat, y: nat) {
    Distance(x, t) < Distance(y, t) || (Distance(x, t) == Distance(y, t) && y <= x)
  }

  /** The position `i` is preferred to every other; among equal times it is the last. */
  ghost predicate IsBest(ends: seq<Event>, t: nat, i: nat) {
    && i < |ends|
    && (forall j :: 0 <= j < |ends| ==> Preferred(t, ends[i].timestampNs, ends[j].timestampNs))
    && (forall j :: i < j < |ends| ==> ends[j].timestampNs != ends[i].timestampNs)
  }

  /** The choice of a scan from left to right. */
  function Best(ends: seq<Event>, t: nat): (i: nat)
    requires ends != []
    ensures i < |ends| && IsBest(ends, t, i)
  {
    var last := |ends| - 1;
    if last == 0 then 0
    else
      var i := Best(ends[..last], t);
      if Preferred(t, ends[last].timestampNs, ends[i].timestampNs) then last else i
  }

  lemma BestUnique(ends: seq<Event>, t: nat, i: nat)
    requires IsBest(ends, t, i)
    ensures Best(ends, t) == i
  {
    var b := Best(ends, t);
    assert Preferred(t, ends[i].timestampNs, ends[b].timestampNs);
    assert Preferred(t, ends[b].timestampNs, ends[i].timestampNs);
  }

  function Without(ends: seq<Event>, i: nat): (r: seq<Event>)
    requires i < |ends|
  {
    ends[..i] + ends[i + 1..]
  }

  function Reach(start: Event, end: Event): (p: Pair) {
    Pair(start, end, Distance(end.timestampNs, start.timestampNs))
  }

  /** Each start in turn takes the best of the ends that are left. */
  function NearestPairs(starts: seq<Event>, ends: seq<Event>): (r: seq<Pair>)
    ensures |r| == Min(|starts|, |ends|)
  {
    if starts == [] || ends == [] then []
    else
      var i := Best(ends, starts[0].timestampNs);
      [Reach(starts[0], ends[i])] + NearestPairs(starts[1..], Without(ends, i))
  }

  /** The ends that are left in the end. */
  function Remaining(starts: seq<Event>, ends: seq<Event>): (r: seq<Event>) {
    if starts == [] || ends == [] then ends
    else Remaining(starts[1..], Without(ends, Best(ends, starts[0].timestampNs)))
  }

  lemma WithoutCounts(ends: seq<Event>, i: nat)
    requires i < |ends|
    ensures multiset(ends) == multiset([ends[i]]) + multiset(Without(ends, i))
  {
    assert ends == ends[..i] + [ends[i]] + ends[i + 1..];
  }

  lemma FirstEnd(p: Pair, rest: seq<Pair>)
    ensures multiset(Map(EndOf(), [p] + rest)) == multiset([p.end]) + multiset(Map(EndOf(), rest))
  {
    assert Map(EndOf(), [p] + rest) == [p.end] + Map(EndOf(), rest);
  }

  /** No end is used twice: the ends of the pairs and the remaining ends are the given ends. */
  lemma {:induction false} EndsUsedOnce(starts: seq<Event>, ends: seq<Event>)
    ensures multiset(Map(EndOf(), NearestPairs(starts, ends))) + multiset(Remaining(starts, ends)) == multiset(ends)
  {
    hide Best, Without;
    if starts != [] && ends != [] {
      var i := Best(ends, starts[0].timestampNs);
      EndsUsedOnce(starts[1..], Without(ends, i));
      WithoutCounts(ends, i);
      FirstEnd(Reach(starts[0], ends[i]), NearestPairs(starts[1..], Without(ends, i)));
    }
  }

  /** Pair `k` joins start `k` with the best of the ends that the earlier starts left. */
  lemma {:induction false} PairsBest(starts: seq<Event>, ends: seq<Event>, k: nat) returns (i: nat)
    requires k < |NearestPairs(starts, ends)|
    ensures k < |starts| && IsBest(Remaining(starts[..k], ends), starts[k].timestampNs, i)
    ensures NearestPairs(starts, ends)[k] == Reach(starts[k], Remaining(starts[..k], ends)[i])
  {
    var b := Best(ends, starts[0].timestampNs);
    if k == 0 {
      i := b;
    } else {
      i := PairsBest(starts[1..], Without(ends, b), k - 1);
      assert starts[..k][1..] == starts[1..][..k - 1];
    }
  }

  // The duration window

  lemma Split(ends: seq<Event>, b: nat)
    requires b < |ends|
    ensures ends == ends[..b] + [ends[b]] + ends[b + 1..] && Without(ends, b) == ends[..b] + ends[b + 1..]
  {
  }

  lemma BestAround(before: seq<Event>, x: Event, after: seq<Event>, s: nat)
    requires forall e :: e in before || e in after ==> Preferred(s, x.timestampNs, e.timestampNs)
    requires forall e :: e in after ==> e.timestampNs != x.timestampNs
    ensures Best(before + [x] + after, s) == |before|
  {
    var all := before + [x] + after;
    assert forall j :: 0 <= j < |all| ==> all[j] in before || all[j] == x || all[j] in after;
    assert forall j :: |before| < j < |all| ==> all[j] in after;
    BestUnique(all, s, |before|);
  }

  lemma BestPrefers(ends: seq<Event>, s: nat, b: nat)
    requires IsBest(ends, s, b)
    ensures forall e :: e in ends[..b] ==> Preferred(s, ends[b].timestampNs, e.timestampNs)
    ensures forall e :: e in ends[b + 1..] ==>
              Preferred(s, ends[b].timestampNs, e.timestampNs) && e.timestampNs != ends[b].timestampNs
  {
  }

  /** The best of all ends is the best of the ends inside a window that holds it. */
  lemma BestOfCut(ends: seq<Event>, s: nat, t: nat)
    requires ends != [] && ends[Best(ends, s)].timestampNs <= t
    ensures var cut := Filter(Within(t), ends);
      var b := Best(ends, s);
      && cut != [] && cut[Best(cut, s)] == ends[b]
      && Filter(Within(t), Without(ends, b)) == Without(cut, Best(cut, s))
  {
    hide *;
    var b := Best(ends, s);
    Split(ends, b);
    BestPrefers(ends, s, b);
    BestOfParts(ends[..b], ends[b], ends[b + 1..], s, t);
  }

  lemma BestOfParts(before: seq<Event>, x: Event, after: seq<Event>, s: nat, t: nat)
    requires x.timestampNs <= t
    requires forall e :: e in before || e in after ==> Preferred(s, x.timestampNs, e.timestampNs)
    requires forall e :: e in after ==> e.timestampNs != x.timestampNs
    ensures var cut := Filter(Within(t), before + [x] + after);
      && cut != [] && cut[Best(cut, s)] == x
      && Filter(Within(t), before + after) == Without(cut, Best(cut, s))
  {
    hide Filter, Best, IsBest, Preferred;
    FilterAround(Within(t), before, x, after);
    FilterConcat(Within(t), before, after);
    var b, a := Filter(Within(t), before), Filter(Within(t), after);
    forall e | e in b ensures e in before { FilterMember(Within(t), before, e); }
    forall e | e in a ensures e in after { FilterMember(Within(t), after, e); }
    BestAround(b, x, a, s);
  }

  lemma PairsStep(starts: seq<Event>, ends: seq<Event>)
    requires starts != [] && ends != []
    ensures var b := Best(ends, starts[0].timestampNs);
      NearestPairs(starts, ends) == [Reach(starts[0], ends[b])] + NearestPairs(starts[1..], Without(ends, b))
  {
  }

  /** The choices of the first `m` starts fall inside the window. */
  ghost predicate FirstInside(starts: seq<Event>, ends: seq<Event>, t: nat, m: nat) {
    && m <= |NearestPairs(starts, ends)|
    && forall k :: 0 <= k < m ==> NearestPairs(starts, ends)[k].end.timestampNs <= t
  }

  lemma FirstInsideStep(starts: seq<Event>, ends: seq<Event>, t: nat, m: nat)
    requires starts != [] && ends != [] && m > 0 && FirstInside(starts, ends, t, m)
    ensures var b := Best(ends, starts[0].timestampNs);
      ends[b].timestampNs <= t && FirstInside(starts[1..], Without(ends, b), t, m - 1)
  {
    hide NearestPairs, Best, IsBest;
    var pairs := NearestPairs(starts, ends);
    PairsStep(starts, ends);
    assert pairs[0].end.timestampNs <= t;
    var rest := NearestPairs(starts[1..], Without(ends, Best(ends, starts[0].timestampNs)));
    forall k | 0 <= k < m - 1 ensures rest[k].end.timestampNs <= t { assert pairs[k + 1] == rest[k]; }
  }

  /** As long as the choices fall inside the window, the cut changes none of them. */
  lemma {:induction false} CutChoosesAlike(starts: seq<Event>, ends: seq<Event>, t: nat, n: nat)
    requires n <= |starts| && FirstInside(starts, ends, t, Min(n, |Filter(Within(t), ends)|))
    ensures NearestPairs(starts[..n], Filter(Within(t), ends))
            == NearestPairs(starts, ends)[..Min(n, |Filter(Within(t), ends)|)]
  {
    hide NearestPairs, Best, IsBest, Filter, FirstInside;
    var cut := Filter(Within(t), ends);
    if n > 0 && cut != [] {
      FilterLonger(ends, t);
      var m := Min(n, |cut|);
      var b := Best(ends, starts[0].timestampNs);
      FirstInsideStep(starts, ends, t, m);
      BestOfCut(ends, starts[0].timestampNs, t);
      PairsStep(starts, ends);
      PairsStep(starts[..n], cut);
      assert starts[..n][1..] == starts[1..][..n - 1];
      CutChoosesAlike(starts[1..], Without(ends, b), t, n - 1);
    }
  }

  lemma {:induction false} FilterLonger(ends: seq<Event>, t: nat)
    ensures |Filter(Within(t), ends)| <= |ends|
  {
    if ends != [] { FilterLonger(ends[1..], t); }
  }

  /** The pairs of the first starts end inside the window, and no others. */
  ghost predicate InsideFirst(starts: seq<Event>, ends: seq<Event>, t: nat) {
    var m := Min(|Filter(Within(t), starts)|, |Filter(Within(t), ends)|);
    forall k :: 0 <= k < |NearestPairs(starts, ends)| ==>
      (NearestPairs(starts, ends)[k].end.timestampNs <= t <==> k < m)
  }

  lemma {:induction false} StartsInOrder(starts: seq<Event>, ends: seq<Event>, k: nat)
    requires k < |NearestPairs(starts, ends)|
    ensures NearestPairs(starts, ends)[k].start == starts[k]
  {
    if k > 0 { StartsInOrder(starts[1..], Without(ends, Best(ends, starts[0].timestampNs)), k - 1); }
  }

  lemma InsideFirstSuffices(starts: seq<Event>, ends: seq<Event>, t: nat)
    requires Sorted(ByTime, starts) && InsideFirst(starts, ends, t)
    ensures NearestPairs(Filter(Within(t), starts), Filter(Within(t), ends))
            == Filter(EndsWithin(t), NearestPairs(starts, ends))
  {
    hide NearestPairs, Filter, Sorted;
    var pairs := NearestPairs(starts, ends);
    var n := WindowIsPrefix(starts, t);
    FilterLonger(ends, t);
    var m := Min(n, |Filter(Within(t), ends)|);
    CutChoosesAlike(starts, ends, t, n);
    assert pairs == pairs[..m] + pairs[m..];
    FilterConcat(EndsWithin(t), pairs[..m], pairs[m..]);
    FilterAll(EndsWithin(t), pairs[..m]);
    FilterNone(EndsWithin(t), pairs[m..]);
  }

  /** For distinct starts the window commutes with the nearest policy if and only if the pairs that end inside it
      are those of the first starts, as many as starts and ends inside allow. */
  lemma NearestWindowIff(starts: seq<Event>, ends: seq<Event>, t: nat)
    requires Sorted(ByTime, starts) && forall i, j :: 0 <= i < j < |starts| ==> starts[i] != starts[j]
    ensures NearestPairs(Filter(Within(t), starts), Filter(Within(t), ends))
            == Filter(EndsWithin(t), NearestPairs(starts, ends))
            <==> InsideFirst(starts, ends, t)
  {
    hide NearestPairs, Filter, Sorted;
    var pairs := NearestPairs(starts, ends);
    var cut := NearestPairs(Filter(Within(t), starts), Filter(Within(t), ends));
    if InsideFirst(starts, ends, t) {
      InsideFirstSuffices(starts, ends, t);
    } else if cut == Filter(EndsWithin(t), pairs) {
      var n := WindowIsPrefix(starts, t);
      forall k | 0 <= k < |pairs| ensures pairs[k].end.timestampNs <= t <==> k < |cut| {
        if k < |cut| {
          FilterMember(EndsWithin(t), pairs, cut[k]);
          var j :| 0 <= j < |pairs| && pairs[j] == cut[k];
          StartsInOrder(starts, ends, j);
          StartsInOrder(Filter(Within(t), starts), Filter(Within(t), ends), k);
        } else if pairs[k].end.timestampNs <= t {
          FilterMember(EndsWithin(t), pairs, pairs[k]);
          var i :| 0 <= i < |cut| && cut[i] == pairs[k];
          StartsInOrder(starts, ends, k);
          StartsInOrder(Filter(Within(t), starts), Filter(Within(t), ends), i);
        }
      }
      assert false;
    }
  }

  // The duration window, read off the events

  /** A start inside the window is closer to every end inside it than to any outside; one outside is at least as
      close to every end outside it as to any inside. */
  ghost predicate KeepsSide(s: Event, ends: seq<Event>, t: nat) {
    forall x, y :: x in ends && y in ends && x.timestampNs <= t < y.timestampNs ==>
      if s.timestampNs <= t
      then Distance(x.timestampNs, s.timestampNs) < Distance(y.timestampNs, s.timestampNs)
      else Distance(y.timestampNs, s.timestampNs) <= Distance(x.timestampNs, s.timestampNs)
  }

  /** Every start prefers the ends on its own side of the window's edge. */
  ghost predicate KeepsSides(starts: seq<Event>, ends: seq<Event>, t: nat) {
    forall s :: s in starts ==> KeepsSide(s, ends, t)
  }

  lemma TakenSide(before: seq<Event>, x: Event, after: seq<Event>, t: nat)
    ensures |Filter(Within(t), before + [x] + after)|
            == |Filter(Within(t), before + after)| + if x.timestampNs <= t then 1 else 0
  {
    hide Filter;
    FilterAround(Within(t), before, x, after);
    FilterConcat(Within(t), before, after);
  }

  /** Taking an end leaves one less on its side. */
  lemma TakeCounts(ends: seq<Event>, b: nat, t: nat)
    requires b < |ends|
    ensures |Without(ends, b)| == |ends| - 1
    ensures |Filter(Within(t), ends)|
            == |Filter(Within(t), Without(ends, b))| + if ends[b].timestampNs <= t then 1 else 0
    ensures forall e :: e in Without(ends, b) ==> e in ends
  {
    hide Filter;
    Split(ends, b);
    TakenSide(ends[..b], ends[b], ends[b + 1..], t);
  }

  /** There is an end on a side if and only if its count is not zero. */
  lemma {:induction false} SideCounts(ends: seq<Event>, t: nat)
    ensures |Filter(Within(t), ends)| > 0 <==> exists x :: x in ends && x.timestampNs <= t
    ensures |Filter(Within(t), ends)| < |ends| <==> exists y :: y in ends && y.timestampNs > t
  {
    if ends != [] {
      SideCounts(ends[1..], t);
      FilterLonger(ends[1..], t);
      assert forall e :: e in ends <==> e == ends[0] || e in ends[1..];
    }
  }

  /** The start takes an end of its own side while there is one. */
  lemma ChoosesSide(s: Event, ends: seq<Event>, t: nat)
    requires ends != [] && KeepsSide(s, ends, t)
    ensures var inside := |Filter(Within(t), ends)|;
      ends[Best(ends, s.timestampNs)].timestampNs <= t
      <==> if s.timestampNs <= t then inside > 0 else inside == |ends|
  {
    hide Filter, Best;
    SideCounts(ends, t);
    FilterLonger(ends, t);
    var b := Best(ends, s.timestampNs);
    assert ends[b] in ends;
    if s.timestampNs <= t < ends[b].timestampNs {
      forall x | x in ends ensures x.timestampNs > t {
        assert Preferred(s.timestampNs, ends[b].timestampNs, x.timestampNs);
      }
    } else if ends[b].timestampNs <= t < s.timestampNs {
      forall y | y in ends ensures y.timestampNs <= t {
        assert Preferred(s.timestampNs, ends[b].timestampNs, y.timestampNs);
      }
    }
  }

  /** With `n` starts inside, and `inside` and `outside` ends, where choice `k` ends. */
  predicate ChoiceInside(k: nat, n: nat, inside: nat, outside: nat) {
    if k < n then k < inside else n < inside && n + outside <= k
  }

  /** Which choices end inside follows from the three counts alone. */
  lemma {:induction false} ChoiceSides(starts: seq<Event>, ends: seq<Event>, t: nat, k: nat)
    requires Sorted(ByTime, starts) && KeepsSides(starts, ends, t) && k < |NearestPairs(starts, ends)|
    ensures |Filter(Within(t), ends)| <= |ends|
    ensures var inside := |Filter(Within(t), ends)|;
      NearestPairs(starts, ends)[k].end.timestampNs <= t
      <==> ChoiceInside(k, |Filter(Within(t), starts)|, inside, |ends| - inside)
  {
    hide NearestPairs, Filter, Best, IsBest, Sorted, KeepsSide, Without;
    var b := Best(ends, starts[0].timestampNs);
    FilterLonger(ends, t);
    PairsStep(starts, ends);
    FirstSide(starts, t);
    ChoosesSide(starts[0], ends, t);
    TakeCounts(ends, b, t);
    if k > 0 {
      SidesStay(starts, ends, t, b);
      ChoiceSides(starts[1..], Without(ends, b), t, k - 1);
    }
  }

  lemma FirstSide(starts: seq<Event>, t: nat)
    requires starts != [] && Sorted(ByTime, starts)
    ensures Sorted(ByTime, starts[1..])
    ensures if starts[0].timestampNs <= t
            then |Filter(Within(t), starts)| == |Filter(Within(t), starts[1..])| + 1
            else |Filter(Within(t), starts)| == 0 == |Filter(Within(t), starts[1..])|
  {
    if starts[0].timestampNs > t {
      FilterNone(Within(t), starts);
      FilterNone(Within(t), starts[1..]);
    }
  }

  lemma SidesStay(starts: seq<Event>, ends: seq<Event>, t: nat, b: nat)
    requires starts != [] && b < |ends| && KeepsSides(starts, ends, t)
    ensures KeepsSides(starts[1..], Without(ends, b), t)
  {
    hide Distance;
    assert forall e :: e in Without(ends, b) ==> e in ends;
    forall s | s in starts[1..] ensures KeepsSide(s, Without(ends, b), t) {
      assert s in starts && KeepsSide(s, ends, t);
    }
  }

  /** No start outside has to take an end inside. */
  ghost predicate EnoughOutside(starts: seq<Event>, ends: seq<Event>, t: nat) {
    || |Filter(Within(t), starts)| >= |Filter(Within(t), ends)|
    || |starts| - |Filter(Within(t), starts)| <= |ends| - |Filter(Within(t), ends)|
  }

  /** When every start prefers its own side, the window commutes with the nearest policy if and only if the
      starts outside it find enough ends outside, or those inside use up the ends inside. */
  lemma NearestWindowSides(starts: seq<Event>, ends: seq<Event>, t: nat)
    requires Sorted(ByTime, starts) && KeepsSides(starts, ends, t)
    ensures NearestPairs(Filter(Within(t), starts), Filter(Within(t), ends))
            == Filter(EndsWithin(t), NearestPairs(starts, ends))
            <==> EnoughOutside(starts, ends, t)
  {
    hide NearestPairs, Filter, Sorted, KeepsSides;
    var pairs := NearestPairs(starts, ends);
    var n, inside := |Filter(Within(t), starts)|, |Filter(Within(t), ends)|;
    FilterLonger(starts, t);
    FilterLonger(ends, t);
    forall k | 0 <= k < |pairs|
      ensures pairs[k].end.timestampNs <= t <==> ChoiceInside(k, n, inside, |ends| - inside)
    {
      ChoiceSides(starts, ends, t, k);
    }
    if EnoughOutside(starts, ends, t) {
      InsideFirstSuffices(starts, ends, t);
    } else {
      LaterInside(pairs, t, n, n + |ends| - inside);
    }
  }

  lemma LaterInside(pairs: seq<Pair>, t: nat, n: nat, k: nat)
    requires n <= k < |pairs| && pairs[k].end.timestampNs <= t
    requires forall i :: 0 <= i < n ==> pairs[i].end.timestampNs <= t
    ensures |Filter(EndsWithin(t), pairs)| > n
  {
    hide Filter;
    assert pairs == pairs[..n] + pairs[n..];
    FilterConcat(EndsWithin(t), pairs[..n], pairs[n..]);
    FilterAll(EndsWithin(t), pairs[..n]);
    assert pairs[k] == pairs[n..][k - n];
    FilterMember(EndsWithin(t), pairs[n..], pairs[k]);
  }

  /** A start between an end inside and one outside at the same distance takes the later one, and the cut takes
      that away. */
  lemma NearestWindowDiffers(e: Event)
    ensures var s, f := [e.(timestampNs := 5)], [e.(timestampNs := 4), e.(timestampNs := 6)];
      && Filter(EndsWithin(5), NearestPairs(s, f)) == []
      && NearestPairs(Filter(Within(5), s), Filter(Within(5), f)) == [Reach(s[0], f[0])]
  {
    var s, f := [e.(timestampNs := 5)], [e.(timestampNs := 4), e.(timestampNs := 6)];
    BestUnique(f, 5, 1);
    assert NearestPairs([], Without(f, 1)) == [];
    assert NearestPairs(s, f) == [Reach(s[0], f[1])];
    FilterOne(EndsWithin(5), Reach(s[0], f[1]));
    FilterOne(Within(5), s[0]);
    FilterOne(Within(5), f[0]);
    FilterOne(Within(5), f[1]);
    FilterConcat(Within(5), [f[0]], [f[1]]);
    assert f == [f[0]] + [f[1]] && [f[0]] + [] == [f[0]];
    BestUnique([f[0]], 5, 0);
  }

  // The ordered buckets

  function At(t: nat): Event -> bool { (e: Event) => e.timestampNs == t }

  type Buckets = map<nat, seq<Event>>

  ghost predicate HoldsAt(available: Buckets, t: nat, bucket: seq<Event>) {
    (t in available <==> bucket != []) && (t in available ==> available[t] == bucket)
  }

  ghost predicate Holds(available: Buckets, ends: seq<Event>) {
    forall t :: HoldsAt(available, t, Filter(At(t), ends))
  }

  lemma HasTime(ends: seq<Event>, t: nat)
    ensures Filter(At(t), ends) != [] <==> exists i :: 0 <= i < |ends| && ends[i].timestampNs == t
  {
    if Filter(At(t), ends) != [] {
      FilterMember(At(t), ends, Filter(At(t), ends)[0]);
    } else if i :| 0 <= i < |ends| && ends[i].timestampNs == t {
      FilterMember(At(t), ends, ends[i]);
    }
  }

  /** The last end of a bucket is the last end of that time in the list. */
  lemma PopLast(ends: seq<Event>, i: nat, t: nat)
    requires i < |ends| && forall j :: i < j < |ends| ==> ends[j].timestampNs != ends[i].timestampNs
    ensures t != ends[i].timestampNs ==> Filter(At(t), Without(ends, i)) == Filter(At(t), ends)
    ensures t == ends[i].timestampNs ==> Filter(At(t), ends) == Filter(At(t), Without(ends, i)) + [ends[i]]
  {
    hide Filter;
    var before, after := ends[..i], ends[i + 1..];
    assert ends == before + [ends[i]] + after;
    FilterAround(At(t), before, ends[i], after);
    FilterConcat(At(t), before, after);
    if t == ends[i].timestampNs { FilterNone(At(t), after); }
  }

  /** Popping the bucket of the best end, and dropping it when empty, takes that end off the list. */
  lemma PopKeeps(available: Buckets, ends: seq<Event>, i: nat)
    requires Holds(available, ends) && i < |ends|
    requires forall j :: i < j < |ends| ==> ends[j].timestampNs != ends[i].timestampNs
    ensures var s := ends[i].timestampNs;
      && s in available && available[s] != [] && available[s][|available[s]| - 1] == ends[i]
      && var bucket := available[s][..|available[s]| - 1];
         Holds(if bucket == [] then available - {s} else available[s := bucket], Without(ends, i))
  {
    hide Filter, Without;
    var s := ends[i].timestampNs;
    assert HoldsAt(available, s, Filter(At(s), ends));
    PopLast(ends, i, s);
    var bucket := available[s][..|available[s]| - 1];
    var popped := if bucket == [] then available - {s} else available[s := bucket];
    forall t ensures HoldsAt(popped, t, Filter(At(t), Without(ends, i))) {
      PopLast(ends, i, t);
      assert HoldsAt(available, t, Filter(At(t), ends));
    }
  }

  /** `range(..=t).next_back()` */
  method LastUpTo(available: Buckets, t: nat) returns (r: Option<nat>)
    ensures r.None? ==> forall x :: x in available ==> x > t
    ensures r.Some? ==> r.value in available && r.value <= t && forall x :: x in available && x <= t ==> x <= r.value
  {
    r := None;
    var todo := available.Keys;
    while todo != {}
      invariant todo <= available.Keys
      invariant r.None? ==> forall x :: x in available && x !in todo ==> x > t
      invariant r.Some? ==> r.value in available && r.value <= t
      invariant r.Some? ==> forall x :: x in available && x !in todo && x <= t ==> x <= r.value
      decreases |todo|
    {
      var x :| x in todo;
      if x <= t && (r.None? || r.value < x) { r := Some(x); }
      todo := todo - {x};
    }
  }

  /** `range(t..).next()` */
  method FirstFrom(available: Buckets, t: nat) returns (r: Option<nat>)
    ensures r.None? ==> forall x :: x in available ==> x < t
    ensures r.Some? ==> r.value in available && r.value >= t && forall x :: x in available && x >= t ==> x >= r.value
  {
    r := None;
    var todo := available.Keys;
    while todo != {}
      invariant todo <= available.Keys
      invariant r.None? ==> forall x :: x in available && x !in todo ==> x < t
      invariant r.Some? ==> r.value in available && r.value >= t
      invariant r.Some? ==> forall x :: x in available && x !in todo && x >= t ==> x >= r.value
      decreases |todo|
    {
      var x :| x in todo;
      if x >= t && (r.None? || r.value > x) { r := Some(x); }
      todo := todo - {x};
    }
  }

  /** The two range queries find the preferred time. */
  method Select(available: Buckets, t: nat) returns (r: Option<nat>)
    ensures r.None? <==> available == map[]
    ensures r.Some? ==> r.value in available && forall x :: x in available ==> Preferred(t, r.value, x)
  {
    var before := LastUpTo(available, t);
    var after := FirstFrom(available, t);
    match (before, after)
    case (Some(b), Some(a)) => r := Some(if t - b < a - t then b else a);
    case (Some(b), None) => r := Some(b);
    case (None, Some(a)) => r := Some(a);
    case (None, None) =>
      r := None;
      assert forall x :: x !in available;
  }

  /** The selected time is the time of the scan's choice. */
  lemma SelectedIsBest(available: Buckets, ends: seq<Event>, t: nat, s: nat)
    requires Holds(available, ends) && s in available
    requires forall x :: x in available ==> Preferred(t, s, x)
    ensures ends != [] && ends[Best(ends, t)].timestampNs == s
  {
    assert HoldsAt(available, s, Filter(At(s), ends));
    HasTime(ends, s);
    var j :| 0 <= j < |ends| && ends[j].timestampNs == s;
    var i := Best(ends, t);
    HasTime(ends, ends[i].timestampNs);
    assert HoldsAt(available, ends[i].timestampNs, Filter(At(ends[i].timestampNs), ends));
    assert Preferred(t, ends[i].timestampNs, ends[j].timestampNs);
  }

  lemma NoneLeft(available: Buckets, ends: seq<Event>)
    requires Holds(available, ends)
    ensures available == map[] <==> ends == []
  {
    if ends != [] {
      HasTime(ends, ends[0].timestampNs);
      assert HoldsAt(available, ends[0].timestampNs, Filter(At(ends[0].timestampNs), ends));
    }
    if t :| t in available {
      HasTime(ends, t);
      assert HoldsAt(available, t, Filter(At(t), ends));
    }
  }

  method Bucket(ends: seq<Event>) returns (available: Buckets)
    ensures Holds(available, ends)
  {
    available := map[];
    for i := 0 to |ends|
      invariant Holds(available, ends[..i])
    {
      var e := ends[i];
      assert ends[..i + 1] == ends[..i] + [e];
      ghost var before := available;
      assert HoldsAt(available, e.timestampNs, Filter(At(e.timestampNs), ends[..i]));
      var bucket := if e.timestampNs in available then available[e.timestampNs] else [];
      available := available[e.timestampNs := bucket + [e]];
      hide Filter;
      forall t ensures HoldsAt(available, t, Filter(At(t), ends[..i + 1])) {
        assert HoldsAt(before, t, Filter(At(t), ends[..i]));
        FilterConcat(At(t), ends[..i], [e]);
        FilterOne(At(t), e);
      }
    }
    assert ends[..|ends|] == ends;
  }

  function TimeIn(times: set<nat>): Event -> bool { (e: Event) => e.timestampNs in times }

  lemma {:induction false} CountTimes(times: set<nat>, t: nat, ends: seq<Event>)
    requires t !in times
    ensures |Filter(TimeIn(times + {t}), ends)| == |Filter(TimeIn(times), ends)| + |Filter(At(t), ends)|
  {
    if ends != [] { CountTimes(times, t, ends[1..]); }
  }

  lemma TimesNone(ends: seq<Event>)
    ensures |Filter(TimeIn({}), ends)| == 0
  {
    FilterNone(TimeIn({}), ends);
  }

  lemma TimesAll(available: Buckets, ends: seq<Event>)
    requires Holds(available, ends)
    ensures Filter(TimeIn(available.Keys), ends) == ends
  {
    forall e | e in ends ensures TimeIn(available.Keys)(e) {
      FilterMember(At(e.timestampNs), ends, e);
      assert HoldsAt(available, e.timestampNs, Filter(At(e.timestampNs), ends));
    }
    FilterAll(TimeIn(available.Keys), ends);
  }

  lemma BucketOf(available: Buckets, ends: seq<Event>, t: nat)
    requires Holds(available, ends) && t in available
    ensures available[t] == Filter(At(t), ends)
  {
    assert HoldsAt(available, t, Filter(At(t), ends));
  }

  method CountLeft(available: Buckets, ghost ends: seq<Event>) returns (n: nat)
    requires Holds(available, ends)
    ensures n == |ends|
  {
    hide *;
    n := 0;
    var todo := available.Keys;
    TimesNone(ends);
    ghost var done: set<nat> := {};
    while todo != {}
      invariant done <= available.Keys && todo == available.Keys - done
      invariant n == |Filter(TimeIn(done), ends)|
      decreases |todo|
    {
      var t :| t in todo;
      CountTimes(done, t, ends);
      BucketOf(available, ends, t);
      n := n + |available[t]|;
      todo, done := todo - {t}, done + {t};
    }
    assert done == available.Keys;
    TimesAll(available, ends);
  }

  // The loop

  ghost predicate Reached(starts: seq<Event>, ends: seq<Event>, limit: Option<nat>) {
    limit.Some? && limit.value < |starts| && limit.value <= |ends|
  }

  /** `pairs` are the pairs of the first starts, and `left` the ends they leave. */
  ghost predicate Progress(starts: seq<Event>, ends: seq<Event>, i: nat, pairs: seq<Pair>, left: seq<Event>)
    requires i <= |starts|
  {
    && NearestPairs(starts, ends) == pairs + NearestPairs(starts[i..], left)
    && |pairs| == i && |left| + i == |ends|
  }

  lemma Begin(starts: seq<Event>, ends: seq<Event>)
    ensures Progress(starts, ends, 0, [], ends)
  {
    assert starts[0..] == starts;
  }

  lemma Next(starts: seq<Event>, ends: seq<Event>, i: nat, pairs: seq<Pair>, left: seq<Event>)
    requires i < |starts| && Progress(starts, ends, i, pairs, left) && left != []
    ensures var b := Best(left, starts[i].timestampNs);
      Progress(starts, ends, i + 1, pairs + [Reach(starts[i], left[b])], Without(left, b))
  {
    hide Best, IsBest;
    assert starts[i..][1..] == starts[i + 1..];
  }

  lemma Finish(starts: seq<Event>, ends: seq<Event>, i: nat, pairs: seq<Pair>, left: seq<Event>, limit: Option<nat>)
    requires i <= |starts| && Progress(starts, ends, i, pairs, left)
    requires i == |starts| || left == [] || limit == Some(i)
    requires limit.Some? ==> i <= limit.value
    ensures pairs == Limited(NearestPairs(starts, ends), limit)
  {
  }

  method Correlate(starts: seq<Event>, ends: seq<Event>, limit: Option<nat>) returns (o: Outcome)
    ensures o.pairs == Limited(NearestPairs(starts, ends), limit)
    ensures !Reached(starts, ends, limit) ==>
              |o.pairs| + o.unmatchedStart == |starts| && |o.pairs| + o.unmatchedEnd == |ends|
    ensures Reached(starts, ends, limit) ==> o.unmatchedStart == 0 && o.unmatchedEnd == 0
    ensures o.ambiguous == 0
  {
    hide NearestPairs, Best, Holds, Without, IsBest, Preferred;
    var available := Bucket(ends);
    var pairs: seq<Pair>, unmatchedStart: nat, reachedLimit := [], 0, false;
    ghost var left := ends;
    var i := 0;
    Begin(starts, ends);
    while i < |starts|
      invariant i <= |starts| && !reachedLimit && unmatchedStart == 0
      invariant limit.Some? ==> i <= limit.value
      invariant Progress(starts, ends, i, pairs, left) && Holds(available, left)
    {
      if limit == Some(|pairs|) {
        reachedLimit := true;
        break;
      }
      var t := starts[i].timestampNs;
      var selected := Select(available, t);
      NoneLeft(available, left);
      if selected.None? {
        unmatchedStart := unmatchedStart + (|starts| - i);
        break;
      }
      var s := selected.value;
      TakeSelected(starts, ends, i, pairs, left, available, s);
      var bucket := available[s];
      var end := bucket[|bucket| - 1];
      bucket := bucket[..|bucket| - 1];
      pairs := pairs + [Pair(starts[i], end, Distance(s, t))];
      available := if bucket == [] then available - {s} else available[s := bucket];
      left := Without(left, Best(left, t));
      i := i + 1;
    }
    Finish(starts, ends, i, pairs, left, limit);
    var unmatchedEnd: nat := 0;
    if !reachedLimit {
      unmatchedEnd := CountLeft(available, left);
    }
    o := Outcome(pairs, unmatchedStart, unmatchedEnd, 0);
  }

  /** One turn: popping the selected bucket is the reference's choice. */
  lemma TakeSelected(starts: seq<Event>, ends: seq<Event>, i: nat, pairs: seq<Pair>, left: seq<Event>,
                     available: Buckets, s: nat)
    requires i < |starts| && Progress(starts, ends, i, pairs, left) && Holds(available, left)
    requires s in available && forall x :: x in available ==> Preferred(starts[i].timestampNs, s, x)
    ensures available[s] != [] && left != []
    ensures var bucket, end := available[s][..|available[s]| - 1], available[s][|available[s]| - 1];
      var rest := Without(left, Best(left, starts[i].timestampNs));
      && Progress(starts, ends, i + 1, pairs + [Pair(starts[i], end, Distance(s, starts[i].timestampNs))], rest)
      && Holds(if bucket == [] then available - {s} else available[s := bucket], rest)
  {
    hide NearestPairs, Holds, Without, Preferred, Progress;
    var t := starts[i].timestampNs;
    SelectedIsBest(available, left, t, s);
    Next(starts, ends, i, pairs, left);
    PopKeeps(available, left, Best(left, t));
  }
}

/** The first-after policy: two cursors walk the starts and the ends, both sorted by
    time, and pair each start with the first end at or after it.
 */
module FirstAfter {
  import opened Common
  import opened Events
  import opened Sorting

  /** A start and an end, by their positions. */
  datatype Link = Link(start: nat, end: nat)

  function Links(starts: seq<Event>, ends: seq<Event>, i: nat, j: nat): (r: seq<Link>)
    requires i <= |starts| && j <= |ends|
    decreases |starts| - i + |ends| - j
  {
    if i == |starts| || j == |ends| then []
    else if ends[j].timestampNs < starts[i].timestampNs then Links(starts, ends, i, j + 1)
    else [Link(i, j)] + Links(starts, ends, i + 1, j + 1)
  }

  /** The same walk over lists of events. */
  function Pairs(starts: seq<Event>, ends: seq<Event>): (r: seq<Pair>)
    decreases |starts| + |ends|
  {
    if starts == [] || ends == [] then []
    else if ends[0].timestampNs < starts[0].timestampNs then Pairs(starts, ends[1..])
    else [Matched(starts[0], ends[0])] + Pairs(starts[1..], ends[1..])
  }

  ghost predicate Linked(starts: seq<Event>, ends: seq<Event>, l: Link, p: Pair) {
    && l.start < |starts| && l.end < |ends|
    && starts[l.start].timestampNs <= ends[l.end].timestampNs
    && p == Matched(starts[l.start], ends[l.end])
  }

  lemma {:induction false} PairsAreLinks(starts: seq<Event>, ends: seq<Event>, i: nat, j: nat)
    requires i <= |starts| && j <= |ends|
    ensures |Pairs(starts[i..], ends[j..])| == |Links(starts, ends, i, j)|
    ensures forall k :: 0 <= k < |Links(starts, ends, i, j)| ==>
              Linked(starts, ends, Links(starts, ends, i, j)[k], Pairs(starts[i..], ends[j..])[k])
    decreases |starts| - i + |ends| - j
  {
    if i < |starts| && j < |ends| {
      assert starts[i..][1..] == starts[i + 1..] && ends[j..][1..] == ends[j + 1..];
      if ends[j].timestampNs < starts[i].timestampNs {
        PairsAreLinks(starts, ends, i, j + 1);
      } else {
        PairsAreLinks(starts, ends, i + 1, j + 1);
      }
    }
  }

  // What the walk pairs

  /** The starts are served in order, with ends in increasing order that are not before them. */
  lemma {:induction false} ServesInOrder(starts: seq<Event>, ends: seq<Event>, i: nat, j: nat)
    requires i <= |starts| && j <= |ends|
    ensures var links := Links(starts, ends, i, j);
      && i + |links| <= |starts|
      && (forall k :: 0 <= k < |links| ==> links[k].start == i + k && j <= links[k].end < |ends|)
      && (forall k :: 0 <= k < |links| ==>
            starts[links[k].start].timestampNs <= ends[links[k].end].timestampNs)
      && (forall k, l :: 0 <= k < l < |links| ==> links[k].end < links[l].end)
    decreases |starts| - i + |ends| - j
  {
    if i < |starts| && j < |ends| {
      if ends[j].timestampNs < starts[i].timestampNs {
        ServesInOrder(starts, ends, i, j + 1);
      } else {
        ServesInOrder(starts, ends, i + 1, j + 1);
      }
    }
  }

  ghost predicate TakenBefore(links: seq<Link>, k: nat, e: nat)
    requires k <= |links|
  {
    exists q :: 0 <= q < k && links[q].end == e
  }

  /** Each start gets the first end that is neither before it nor taken by an earlier start. */
  lemma {:induction false} GetsFirst(starts: seq<Event>, ends: seq<Event>, i: nat, j: nat, k: nat, e: nat)
    requires i <= |starts| && j <= |ends| && Sorted(ByTime, starts)
    requires k < |Links(starts, ends, i, j)| && j <= e < Links(starts, ends, i, j)[k].end
    ensures i + k < |starts| && e < |ends|
    ensures TakenBefore(Links(starts, ends, i, j), k, e)
            || ends[e].timestampNs < starts[i + k].timestampNs
    decreases |starts| - i + |ends| - j
  {
    ServesInOrder(starts, ends, i, j);
    var links := Links(starts, ends, i, j);
    if ends[j].timestampNs < starts[i].timestampNs {
      assert k > 0 ==> ByTime(starts[i], starts[i + k]);
      if e > j { GetsFirst(starts, ends, i, j + 1, k, e); }
    } else if e == j {
      assert links[0].end == e;
    } else {
      var rest := Links(starts, ends, i + 1, j + 1);
      GetsFirst(starts, ends, i + 1, j + 1, k - 1, e);
      if TakenBefore(rest, k - 1, e) {
        var q :| 0 <= q < k - 1 && rest[q].end == e;
        assert links[q + 1].end == e;
      }
    }
  }

  /** When the walk leaves a start unpaired, no untaken end is late enough for it. */
  lemma {:induction false} LeavesNone(starts: seq<Event>, ends: seq<Event>, i: nat, j: nat, s: nat, e: nat)
    requires i <= |starts| && j <= |ends|
    requires Sorted(ByTime, starts)
    requires i + |Links(starts, ends, i, j)| <= s < |starts| && j <= e < |ends|
    ensures TakenBefore(Links(starts, ends, i, j), |Links(starts, ends, i, j)|, e)
            || ends[e].timestampNs < starts[s].timestampNs
    decreases |starts| - i + |ends| - j
  {
    var links := Links(starts, ends, i, j);
    if ends[j].timestampNs < starts[i].timestampNs {
      assert i < s ==> ByTime(starts[i], starts[s]);
      if e > j { LeavesNone(starts, ends, i, j + 1, s, e); }
    } else {
      var rest := Links(starts, ends, i + 1, j + 1);
      if e == j {
        assert links[0].end == e;
      } else {
        LeavesNone(starts, ends, i + 1, j + 1, s, e);
        if TakenBefore(rest, |rest|, e) {
          var q :| 0 <= q < |rest| && rest[q].end == e;
          assert links[q + 1].end == e;
        }
      }
    }
  }

  // No pairing is larger

  /** A one-to-one pairing of starts `i..` with ends `j..` that never runs backwards in time. */
  ghost predicate Matching(starts: seq<Event>, ends: seq<Event>, i: nat, j: nat, m: set<Link>) {
    && (forall l :: l in m ==> i <= l.start < |starts| && j <= l.end < |ends|)
    && (forall l :: l in m ==> starts[l.start].timestampNs <= ends[l.end].timestampNs)
    && (forall l, k :: l in m && k in m && (l.start == k.start || l.end == k.end) ==> l == k)
  }

  /** If start `i` and end `j` are paired elsewhere, their partners can be paired instead. */
  lemma Rejoin(starts: seq<Event>, ends: seq<Event>, i: nat, j: nat, m: set<Link>, a: Link, b: Link)
    returns (m': set<Link>)
    requires i < |starts| && j < |ends| && Sorted(ByTime, ends)
    requires Matching(starts, ends, i, j, m)
    requires a in m && b in m && a.start == i && b.end == j && a != b
    ensures Matching(starts, ends, i + 1, j + 1, m') && |m| <= |m'| + 1
  {
    var joined := Link(b.start, a.end);
    assert starts[b.start].timestampNs <= ends[a.end].timestampNs by {
      assert ByTime(ends[j], ends[a.end]);
    }
    hide Sorted;
    assert joined !in m;
    var rest := m - {a, b};
    assert m == rest + {a} + {b};
    m' := rest + {joined};
  }

  /** If at most one pair uses start `i` or end `j`, it is given up. */
  lemma GiveUp(starts: seq<Event>, ends: seq<Event>, i: nat, j: nat, m: set<Link>, a: Link)
    requires i < |starts| && j < |ends| && Matching(starts, ends, i, j, m)
    requires forall l :: l in m && (l.start == i || l.end == j) ==> l == a
    ensures Matching(starts, ends, i + 1, j + 1, m - {a}) && |m| <= |m - {a}| + 1
  {
    if a in m { assert m == (m - {a}) + {a}; } else { assert m == m - {a}; }
  }

  /** The exchange step: any pairing can give up start `i` and end `j` at the cost of one pair. */
  lemma Exchange(starts: seq<Event>, ends: seq<Event>, i: nat, j: nat, m: set<Link>) returns (m': set<Link>)
    requires i < |starts| && j < |ends| && Sorted(ByTime, ends)
    requires Matching(starts, ends, i, j, m)
    ensures Matching(starts, ends, i + 1, j + 1, m') && |m| <= |m'| + 1
  {
    var a := if exists l :: l in m && l.start == i then var l :| l in m && l.start == i; l else Link(i, j);
    var b := if exists l :: l in m && l.end == j then var l :| l in m && l.end == j; l else Link(i, j);
    assert forall l :: l in m && l.start == i ==> l == a;
    assert forall l :: l in m && l.end == j ==> l == b;
    hide *;
    if a in m && b in m && a != b {
      m' := Rejoin(starts, ends, i, j, m, a, b);
    } else {
      var c := if a in m then a else b;
      GiveUp(starts, ends, i, j, m, c);
      m' := m - {c};
    }
  }

  lemma {:induction false} MaximumFrom(starts: seq<Event>, ends: seq<Event>, i: nat, j: nat, m: set<Link>)
    requires i <= |starts| && j <= |ends|
    requires Sorted(ByTime, starts) && Sorted(ByTime, ends)
    requires Matching(starts, ends, i, j, m)
    ensures |m| <= |Links(starts, ends, i, j)|
    decreases |starts| - i + |ends| - j
  {
    if i == |starts| || j == |ends| {
      assert m == {};
    } else if ends[j].timestampNs < starts[i].timestampNs {
      forall l | l in m ensures j < l.end {
        assert i < l.start ==> ByTime(starts[i], starts[l.start]);
      }
      MaximumFrom(starts, ends, i, j + 1, m);
    } else {
      var m' := Exchange(starts, ends, i, j, m);
      MaximumFrom(starts, ends, i + 1, j + 1, m');
    }
  }

  /** First-after pairs as many samples as any causal one-to-one pairing can. */
  lemma Maximum(starts: seq<Event>, ends: seq<Event>, m: set<Link>)
    requires Sorted(ByTime, starts) && Sorted(ByTime, ends)
    requires Matching(starts, ends, 0, 0, m)
    ensures |m| <= |Pairs(starts, ends)|
  {
    MaximumFrom(starts, ends, 0, 0, m);
    PairsAreLinks(starts, ends, 0, 0);
    assert starts[0..] == starts && ends[0..] == ends;
  }

  /** The walk's own links are such a pairing, so the maximum is attained. */
  lemma Attained(starts: seq<Event>, ends: seq<Event>) returns (m: set<Link>)
    requires Sorted(ByTime, starts)
    ensures Matching(starts, ends, 0, 0, m) && |m| == |Pairs(starts, ends)|
  {
    var links := Links(starts, ends, 0, 0);
    ServesInOrder(starts, ends, 0, 0);
    m := set l | l in links;
    CountDistinct(links);
    PairsAreLinks(starts, ends, 0, 0);
    assert starts[0..] == starts && ends[0..] == ends;
  }

  lemma {:induction false} CountDistinct(links: seq<Link>)
    requires forall k, l :: 0 <= k < l < |links| ==> links[k].end < links[l].end
    ensures |set l | l in links| == |links|
  {
    if links != [] {
      var rest := links[..|links| - 1];
      CountDistinct(rest);
      assert links == rest + [links[|links| - 1]];
      assert (set l | l in links) == (set l | l in rest) + {links[|links| - 1]};
      assert links[|links| - 1] !in rest;
    }
  }

  // The walk itself

  ghost predicate Reached(starts: seq<Event>, ends: seq<Event>, limit: Option<nat>) {
    limit.Some? && limit.value <= |Links(starts, ends, 0, 0)|
  }

  /** The cursors are at `i` and `j`, having paired `links`, as `pairs`. */
  ghost predicate At(starts: seq<Event>, ends: seq<Event>, i: nat, j: nat, links: seq<Link>, pairs: seq<Pair>)
    requires i <= |starts| && j <= |ends|
  {
    && Links(starts, ends, 0, 0) == links + Links(starts, ends, i, j)
    && Pairs(starts, ends) == pairs + Pairs(starts[i..], ends[j..])
  }

  lemma Skip(starts: seq<Event>, ends: seq<Event>, i: nat, j: nat, links: seq<Link>, pairs: seq<Pair>)
    requires i < |starts| && j < |ends| && At(starts, ends, i, j, links, pairs)
    requires ends[j].timestampNs < starts[i].timestampNs
    ensures At(starts, ends, i, j + 1, links, pairs)
  {
    assert ends[j..][1..] == ends[j + 1..];
  }

  lemma Take(starts: seq<Event>, ends: seq<Event>, i: nat, j: nat, links: seq<Link>, pairs: seq<Pair>)
    requires i < |starts| && j < |ends| && At(starts, ends, i, j, links, pairs)
    requires starts[i].timestampNs <= ends[j].timestampNs
    ensures At(starts, ends, i + 1, j + 1, links + [Link(i, j)],
               pairs + [Pair(starts[i], ends[j], ends[j].timestampNs - starts[i].timestampNs)])
  {
    assert ends[j..][1..] == ends[j + 1..] && starts[i..][1..] == starts[i + 1..];
  }

  /** With no ends left, a start passes unpaired. */
  lemma Pass(starts: seq<Event>, ends: seq<Event>, i: nat, links: seq<Link>, pairs: seq<Pair>)
    requires i < |starts| && At(starts, ends, i, |ends|, links, pairs)
    ensures At(starts, ends, i + 1, |ends|, links, pairs)
  {
  }

  lemma Begin(starts: seq<Event>, ends: seq<Event>)
    ensures At(starts, ends, 0, 0, [], [])
  {
    assert starts[0..] == starts && ends[0..] == ends;
  }

  lemma Finished(starts: seq<Event>, ends: seq<Event>, i: nat, j: nat, links: seq<Link>, pairs: seq<Pair>,
                 limit: Option<nat>)
    requires i <= |starts| && j <= |ends| && At(starts, ends, i, j, links, pairs) && |links| == |pairs|
    requires i == |starts| || j == |ends| || limit == Some(|pairs|)
    requires limit.Some? ==> |pairs| <= limit.value
    ensures pairs == Limited(Pairs(starts, ends), limit)
    ensures limit.None? ==> pairs == Pairs(starts, ends)
    ensures links <= Links(starts, ends, 0, 0)
    ensures Reached(starts, ends, limit) <==> limit == Some(|pairs|)
  {
  }

  /** Moves the end cursor past the ends before a start. */
  method SkipEarlier(starts: seq<Event>, ends: seq<Event>, i: nat, j: nat, ghost links: seq<Link>, ghost pairs: seq<Pair>)
    returns (k: nat)
    requires i < |starts| && j <= |ends| && At(starts, ends, i, j, links, pairs)
    ensures j <= k <= |ends| && At(starts, ends, i, k, links, pairs)
    ensures forall e :: j <= e < k ==> ends[e].timestampNs < starts[i].timestampNs
    ensures k < |ends| ==> starts[i].timestampNs <= ends[k].timestampNs
  {
    k := j;
    while k < |ends| && ends[k].timestampNs < starts[i].timestampNs
      invariant j <= k <= |ends| && At(starts, ends, i, k, links, pairs)
      invariant forall e :: j <= e < k ==> ends[e].timestampNs < starts[i].timestampNs
    {
      Skip(starts, ends, i, k, links, pairs);
      k := k + 1;
    }
  }

  method Correlate(starts: seq<Event>, ends: seq<Event>, limit: Option<nat>) returns (o: Outcome)
    ensures o.pairs == Limited(Pairs(starts, ends), limit)
    ensures !Reached(starts, ends, limit) ==>
              |o.pairs| + o.unmatchedStart == |starts| && |o.pairs| + o.unmatchedEnd == |ends|
    ensures Reached(starts, ends, limit) ==> o.unmatchedStart == 0
    ensures Reached(starts, ends, limit) && limit.value > 0 ==>
              |o.pairs| + o.unmatchedEnd == Links(starts, ends, 0, 0)[limit.value - 1].end + 1
    ensures limit == Some(0) ==> o.unmatchedEnd == 0
    ensures o.ambiguous == 0
  {
    var pairs: seq<Pair>, unmatchedStart: nat, unmatchedEnd: nat := [], 0, 0;
    var i, j := 0, 0;
    ghost var links: seq<Link> := [];
    Begin(starts, ends);
    hide At, Links, Pairs;
    while i < |starts|
      invariant i <= |starts| && j <= |ends| && |pairs| == |links| == i
      invariant limit.Some? ==> i <= limit.value
      invariant j == unmatchedEnd + i && unmatchedStart == 0
      invariant if i > 0 then links[i - 1].end + 1 == j else j == 0
      invariant At(starts, ends, i, j, links, pairs)
    {
      if limit == Some(|pairs|) { break; }
      var k := SkipEarlier(starts, ends, i, j, links, pairs);
      unmatchedEnd := unmatchedEnd + (k - j);
      j := k;
      if j < |ends| {
        Take(starts, ends, i, j, links, pairs);
        pairs := pairs + [Pair(starts[i], ends[j], ends[j].timestampNs - starts[i].timestampNs)];
        links := links + [Link(i, j)];
        j := j + 1;
      } else {
        unmatchedStart := unmatchedStart + (|starts| - i);
        break;
      }
      i := i + 1;
    }
    Finished(starts, ends, i, j, links, pairs, limit);
    if limit.None? || |pairs| < limit.value {
      unmatchedEnd := unmatchedEnd + (|ends| - j);
    }
    o := Outcome(pairs, unmatchedStart, unmatchedEnd, 0);
  }

  /** One stream's walk; unlike the first-after policy it counts unpaired starts one by one. */
  method PairStream(starts: seq<Event>, ends: seq<Event>) returns (pairs: seq<Pair>, unmatchedStart: nat, unmatchedEnd: nat)
    ensures pairs == Pairs(starts, ends)
    ensures |pairs| + unmatchedStart == |starts| && |pairs| + unmatchedEnd == |ends|
  {
    pairs, unmatchedStart, unmatchedEnd := [], 0, 0;
    var j := 0;
    ghost var links: seq<Link> := [];
    Begin(starts, ends);
    hide At, Links, Pairs;
    for i := 0 to |starts|
      invariant j <= |ends| && j == unmatchedEnd + |pairs| && |links| == |pairs|
      invariant i == |pairs| + unmatchedStart
      invariant At(starts, ends, i, j, links, pairs)
    {
      var k := SkipEarlier(starts, ends, i, j, links, pairs);
      unmatchedEnd := unmatchedEnd + (k - j);
      j := k;
      if j < |ends| {
        Take(starts, ends, i, j, links, pairs);
        links := links + [Link(i, j)];
        pairs := pairs + [Pair(starts[i], ends[j], ends[j].timestampNs - starts[i].timestampNs)];
        j := j + 1;
      } else {
        Pass(starts, ends, i, links, pairs);
        unmatchedStart := unmatchedStart + 1;
      }
    }
    Finished(starts, ends, |starts|, j, links, pairs, None);
    unmatchedEnd := unmatchedEnd + (|ends| - j);
  }

  // The duration window

  lemma {:induction false} EndsBound(starts: seq<Event>, ends: seq<Event>, t: nat)
    requires (forall e :: e in starts ==> e.timestampNs > t) || (forall e :: e in ends ==> e.timestampNs > t)
    ensures Filter(EndsWithin(t), Pairs(starts, ends)) == []
    decreases |starts| + |ends|
  {
    if starts != [] && ends != [] {
      if ends[0].timestampNs < starts[0].timestampNs {
        EndsBound(starts, ends[1..], t);
      } else {
        assert ends[0] in ends && starts[0] in starts;
        EndsBound(starts[1..], ends[1..], t);
      }
    }
  }

  /** Cutting both inputs at the window keeps exactly the pairs that end inside it. */
  lemma {:induction false} WindowCommutes(starts: seq<Event>, ends: seq<Event>, t: nat)
    requires Sorted(ByTime, starts) && Sorted(ByTime, ends)
    ensures Pairs(Filter(Within(t), starts), Filter(Within(t), ends))
            == Filter(EndsWithin(t), Pairs(starts, ends))
    decreases |starts| + |ends|
  {
    if starts != [] && ends != [] {
      if starts[0].timestampNs > t || ends[0].timestampNs > t {
        var late := if starts[0].timestampNs > t then starts else ends;
        assert forall e :: e in late ==> ByTime(late[0], e);
        EndsBound(starts, ends, t);
        FilterNone(Within(t), late);
      } else if ends[0].timestampNs < starts[0].timestampNs {
        WindowCommutes(starts, ends[1..], t);
      } else {
        WindowCommutes(starts[1..], ends[1..], t);
      }
    }
  }

  lemma {:induction false} PairsUseOnce(starts: seq<Event>, ends: seq<Event>)
    ensures UsesOnce(Pairs(starts, ends), starts, ends)
    decreases |starts| + |ends|
  {
    hide UsesOnce;
    if starts == [] || ends == [] {
      NoUses(starts, ends);
    } else {
      assert starts == [starts[0]] + starts[1..] && ends == [ends[0]] + ends[1..];
      if ends[0].timestampNs < starts[0].timestampNs {
        PairsUseOnce(starts, ends[1..]);
        UsesLess(Pairs(starts, ends[1..]), starts, ends[1..], starts[0], ends[0]);
      } else {
        PairsUseOnce(starts[1..], ends[1..]);
        UsesMore(Matched(starts[0], ends[0]), Pairs(starts[1..], ends[1..]), starts[1..], ends[1..]);
      }
    }
  }

  lemma NoneToPair(starts: seq<Event>, ends: seq<Event>)
    requires starts == [] || ends == []
    ensures Pairs(starts, ends) == []
  {
  }

  lemma {:induction false} Members(starts: seq<Event>, ends: seq<Event>, p: Pair)
    requires p in Pairs(starts, ends)
    ensures p.start in starts && p.end in ends
    decreases |starts| + |ends|
  {
    if ends[0].timestampNs < starts[0].timestampNs {
      Members(starts, ends[1..], p);
    } else if p != Matched(starts[0], ends[0]) {
      Members(starts[1..], ends[1..], p);
    }
  }

  /** The pairs come out in the order of their starts. */
  lemma {:induction false} SortedByStart(starts: seq<Event>, ends: seq<Event>)
    requires Sorted(ByTime, starts)
    ensures Sorted(ByStart, Pairs(starts, ends))
    decreases |starts| + |ends|
  {
    if starts != [] && ends != [] {
      if ends[0].timestampNs < starts[0].timestampNs {
        SortedByStart(starts, ends[1..]);
      } else {
        SortedByStart(starts[1..], ends[1..]);
        forall p | p in Pairs(starts[1..], ends[1..]) ensures ByTime(starts[0], p.start) {
          Members(starts[1..], ends[1..], p);
        }
      }
    }
  }
}

/** Merging completed captures of one process into one event stream. */
module CompletedMerge {
  import opened Common
  import opened Sorting

  type Word = n: nat | n < U64

  datatype Identifier = Given(text: string) | Numbered(sequence: nat)

  /** An event: its identifiers, and the rest of it. */
  datatype Record = Record(pid: nat, timestampNs: nat, session: string, sequence: nat, id: Identifier, body: nat)

  datatype Statistics = Statistics(complete: bool, capacity: Word, observed: Word, dropped: Word)

  datatype Capture = Capture(dropped: Word, unknown: Word, limitReached: Option<Word>, failed: bool,
                             cupti: Option<Statistics>, events: seq<Record>)

  datatype Error = CounterOverflow | TargetMismatch(expected: nat, actual: nat)

  datatype Result = Ok(value: Capture) | Err(error: Error)

  // Counters, without their bounds

  datatype Sums = Sums(complete: bool, capacity: nat, observed: nat, dropped: nat)

  datatype Totals = Totals(dropped: nat, unknown: nat, limitReached: Option<nat>, failed: bool, cupti: Option<Sums>)

  const NONE: Totals := Totals(0, 0, None, false, None)

  function Larger(a: Option<nat>, b: Option<nat>): (r: Option<nat>) {
    if a.None? then b else if b.None? then a else Some(Max(a.value, b.value))
  }

  function Both(a: Option<Sums>, b: Option<Sums>): (r: Option<Sums>) {
    if a.None? then b else if b.None? then a
    else Some(Sums(a.value.complete && b.value.complete, a.value.capacity + b.value.capacity,
                   a.value.observed + b.value.observed, a.value.dropped + b.value.dropped))
  }

  function Plus(a: Totals, b: Totals): (r: Totals) {
    Totals(a.dropped + b.dropped, a.unknown + b.unknown, Larger(a.limitReached, b.limitReached),
           a.failed || b.failed, Both(a.cupti, b.cupti))
  }

  function Own(c: Capture): (t: Totals) {
    Totals(c.dropped, c.unknown, c.limitReached, c.failed,
           if c.cupti.None? then None
           else Some(Sums(c.cupti.value.complete, c.cupti.value.capacity, c.cupti.value.observed, c.cupti.value.dropped)))
  }

  function Total(captures: seq<Capture>): (t: Totals) {
    if captures == [] then NONE else Plus(Total(captures[..|captures| - 1]), Own(captures[|captures| - 1]))
  }

  predicate FitsSums(s: Option<Sums>) {
    s.Some? ==> s.value.capacity < U64 && s.value.observed < U64 && s.value.dropped < U64
  }

  predicate Fits(t: Totals) {
    t.dropped < U64 && t.unknown < U64 && (t.limitReached.Some? ==> t.limitReached.value < U64) && FitsSums(t.cupti)
  }

  function Bounded(t: Totals, events: seq<Record>): (c: Capture)
    requires Fits(t)
    ensures Own(c) == t && c.events == events
  {
    Capture(t.dropped, t.unknown, t.limitReached, t.failed,
            if t.cupti.None? then None
            else Some(Statistics(t.cupti.value.complete, t.cupti.value.capacity, t.cupti.value.observed, t.cupti.value.dropped)),
            events)
  }

  // Events

  function Events(captures: seq<Capture>): (r: seq<Record>) {
    if captures == [] then [] else Events(captures[..|captures| - 1]) + captures[|captures| - 1].events
  }

  predicate ByTime(a: Record, b: Record) { a.timestampNs <= b.timestampNs }

  /** Every event belongs to the process of the first one. */
  ghost predicate OneProcess(events: seq<Record>) { forall e :: e in events ==> e.pid == events[0].pid }

  function Renumbered(e: Record, i: nat, session: string): (r: Record) {
    e.(session := session, sequence := i, id := Numbered(i))
  }

  function Renumber(events: seq<Record>, session: string): (r: seq<Record>)
    ensures |r| == |events|
  {
    seq(|events|, i requires 0 <= i < |events| => Renumbered(events[i], i, session))
  }

  /** Whether captures can be merged, and the merge. */
  ghost predicate Mergeable(captures: seq<Capture>) { Fits(Total(captures)) && OneProcess(Events(captures)) }

  ghost function Merged(captures: seq<Capture>, session: string): (c: Capture)
    requires Mergeable(captures)
  {
    Bounded(Total(captures), Renumber(StableSort(ByTime, Events(captures)), session))
  }

  // What the merge is

  lemma ByTimePreorder()
    ensures Preorder(ByTime)
  {
  }

  /** Everything but the identifiers. */
  function Strip(): Record -> Record { (e: Record) => e.(session := "", sequence := 0, id := Given("")) }

  lemma RenumberKeeps(events: seq<Record>, session: string)
    ensures Map(Strip(), Renumber(events, session)) == Map(Strip(), events)
  {
  }

  lemma RenumberStripped(a: seq<Record>, b: seq<Record>, session: string)
    requires Map(Strip(), a) == Map(Strip(), b)
    ensures Renumber(a, session) == Renumber(b, session)
  {
    assert |a| == |Map(Strip(), a)| == |Map(Strip(), b)| == |b|;
    forall i | 0 <= i < |a| ensures Renumber(a, session)[i] == Renumber(b, session)[i] {
      assert Map(Strip(), a)[i] == Map(Strip(), b)[i];
    }
  }

  /** The merged events are in time order, a stable permutation of the inputs up to their identifiers, and
      numbered by position. */
  lemma MergedEvents(captures: seq<Capture>, session: string)
    requires Mergeable(captures)
    ensures var events := Merged(captures, session).events;
      && (forall i, j :: 0 <= i < j < |events| ==> events[i].timestampNs <= events[j].timestampNs)
      && Map(Strip(), events) == StableSort(ByTime, Map(Strip(), Events(captures)))
      && (forall i :: 0 <= i < |events| ==>
            events[i].sequence == i && events[i].id == Numbered(i) && events[i].session == session)
  {
    var sorted := StableSort(ByTime, Events(captures));
    ByTimePreorder();
    SortSorts(ByTime, Events(captures));
    RenumberKeeps(sorted, session);
    MapSort(ByTime, ByTime, Strip(), Events(captures));
    forall i, j | 0 <= i < j < |sorted|
      ensures Renumber(sorted, session)[i].timestampNs <= Renumber(sorted, session)[j].timestampNs
    {
      assert ByTime(sorted[i], sorted[j]);
    }
    hide StableSort, Sorted, Total;
  }

  // What the counters are

  function SumOf(count: Capture -> nat, captures: seq<Capture>): (n: nat) {
    if captures == [] then 0
    else SumOf(count, captures[..|captures| - 1]) + count(captures[|captures| - 1])
  }

  /** The sum of a statistic over the captures that have statistics. */
  function SumOfCupti(count: Statistics -> nat, captures: seq<Capture>): (n: nat) {
    if captures == [] then 0
    else
      var last := captures[|captures| - 1];
      SumOfCupti(count, captures[..|captures| - 1]) + if last.cupti.None? then 0 else count(last.cupti.value)
  }

  lemma {:induction false} TotalCounts(captures: seq<Capture>)
    ensures var t := Total(captures);
      && t.dropped == SumOf((c: Capture) => c.dropped, captures)
      && t.unknown == SumOf((c: Capture) => c.unknown, captures)
      && (t.failed <==> exists c :: c in captures && c.failed)
  {
    if captures != [] {
      var init, last := captures[..|captures| - 1], captures[|captures| - 1];
      TotalCounts(init);
      assert forall c :: c in captures <==> c in init || c == last;
    }
  }

  lemma {:induction false} TotalLimit(captures: seq<Capture>)
    ensures var limit := Total(captures).limitReached;
      && (limit.None? <==> forall c :: c in captures ==> c.limitReached.None?)
      && (limit.Some? ==> exists c :: c in captures && c.limitReached == limit)
      && (limit.Some? ==> forall c :: c in captures && c.limitReached.Some? ==> c.limitReached.value <= limit.value)
  {
    if captures != [] {
      var init, last := captures[..|captures| - 1], captures[|captures| - 1];
      TotalLimit(init);
      assert forall c :: c in captures <==> c in init || c == last;
    }
  }

  lemma {:induction false} TotalCupti(captures: seq<Capture>)
    ensures var cupti := Total(captures).cupti;
      && (cupti.None? <==> forall c :: c in captures ==> c.cupti.None?)
      && (cupti.Some? ==>
            (cupti.value.complete <==> forall c :: c in captures && c.cupti.Some? ==> c.cupti.value.complete))
  {
    if captures != [] {
      var init, last := captures[..|captures| - 1], captures[|captures| - 1];
      TotalCupti(init);
      assert forall c :: c in captures <==> c in init || c == last;
    }
  }

  lemma {:induction false} TotalStatistics(captures: seq<Capture>)
    ensures var cupti := Total(captures).cupti;
      && SumOfCupti((s: Statistics) => s.capacity, captures) == (if cupti.None? then 0 else cupti.value.capacity)
      && SumOfCupti((s: Statistics) => s.observed, captures) == (if cupti.None? then 0 else cupti.value.observed)
      && SumOfCupti((s: Statistics) => s.dropped, captures) == (if cupti.None? then 0 else cupti.value.dropped)
  {
    if captures != [] { TotalStatistics(captures[..|captures| - 1]); }
  }

  /** The merged counters are the sums over the captures, a merged capture failed if one did, its limit is the
      largest one reached, and its statistics are complete if all are. */
  lemma MergedCounters(captures: seq<Capture>, session: string)
    requires Mergeable(captures)
    ensures var m := Merged(captures, session);
      && m.dropped == SumOf((c: Capture) => c.dropped, captures)
      && m.unknown == SumOf((c: Capture) => c.unknown, captures)
      && (m.failed <==> exists c :: c in captures && c.failed)
      && (m.limitReached.None? <==> forall c :: c in captures ==> c.limitReached.None?)
      && (m.limitReached.Some? ==>
            && (exists c :: c in captures && c.limitReached == m.limitReached)
            && forall c :: c in captures && c.limitReached.Some? ==> c.limitReached.value <= m.limitReached.value)
      && (m.cupti.None? <==> forall c :: c in captures ==> c.cupti.None?)
      && (m.cupti.Some? ==>
            && (m.cupti.value.complete <==> forall c :: c in captures && c.cupti.Some? ==> c.cupti.value.complete)
            && m.cupti.value.capacity == SumOfCupti((s: Statistics) => s.capacity, captures)
            && m.cupti.value.observed == SumOfCupti((s: Statistics) => s.observed, captures)
            && m.cupti.value.dropped == SumOfCupti((s: Statistics) => s.dropped, captures))
  {
    hide Total, Events, StableSort, SumOf, SumOfCupti;
    TotalCounts(captures);
    TotalLimit(captures);
    TotalCupti(captures);
    TotalStatistics(captures);
  }

  // Merging in stages

  lemma PlusLaws(a: Totals, b: Totals, c: Totals)
    ensures Plus(Plus(a, b), c) == Plus(a, Plus(b, c))
    ensures Plus(NONE, a) == a && Plus(a, NONE) == a
    ensures Fits(Plus(a, b)) ==> Fits(a) && Fits(b)
  {
  }

  lemma {:induction false} TotalConcat(a: seq<Capture>, b: seq<Capture>)
    ensures Total(a + b) == Plus(Total(a), Total(b))
  {
    hide Plus, Own;
    if b == [] {
      assert a + b == a;
      PlusLaws(Total(a), NONE, NONE);
    } else {
      var init, c := b[..|b| - 1], b[|b| - 1];
      assert (a + b)[..|a + b| - 1] == a + init;
      TotalConcat(a, init);
      PlusLaws(Total(a), Total(init), Own(c));
    }
  }

  lemma Associate(a: seq<Record>, b: seq<Record>, c: seq<Record>)
    ensures (a + b) + c == a + (b + c)
  {
  }

  lemma {:induction false} EventsConcat(a: seq<Capture>, b: seq<Capture>)
    ensures Events(a + b) == Events(a) + Events(b)
  {
    if b == [] {
      assert a + b == a;
    } else {
      var init, c := b[..|b| - 1], b[|b| - 1];
      assert (a + b)[..|a + b| - 1] == a + init;
      EventsConcat(a, init);
      Associate(Events(a), Events(init), c.events);
    }
  }

  function Flatten(parts: seq<seq<Capture>>): (r: seq<Capture>) {
    if parts == [] then [] else Flatten(parts[..|parts| - 1]) + parts[|parts| - 1]
  }

  /** The first stage: every part merged on its own. */
  ghost function Stage(parts: seq<seq<Capture>>, session: string): (r: seq<Capture>)
    requires forall p :: p in parts ==> Mergeable(p)
    ensures |r| == |parts|
  {
    seq(|parts|, i requires 0 <= i < |parts| => Merged(parts[i], session))
  }

  lemma {:induction false} StageTotal(parts: seq<seq<Capture>>, session: string)
    requires forall p :: p in parts ==> Mergeable(p)
    ensures Total(Stage(parts, session)) == Total(Flatten(parts))
  {
    if parts != [] {
      var init, last := parts[..|parts| - 1], parts[|parts| - 1];
      StageTotal(init, session);
      assert Stage(parts, session)[..|parts| - 1] == Stage(init, session);
      TotalConcat(Flatten(init), last);
    }
  }

  lemma SortsAlike(a: seq<Record>, b: seq<Record>, c: seq<Record>, d: seq<Record>)
    requires StableSort(ByTime, a) == StableSort(ByTime, b) && StableSort(ByTime, c) == StableSort(ByTime, d)
    ensures StableSort(ByTime, a + c) == StableSort(ByTime, b + d)
  {
    ByTimePreorder();
    SortPieces(ByTime, a, c);
    SortPieces(ByTime, b, d);
  }

  lemma SortTwice(a: seq<Record>)
    ensures StableSort(ByTime, StableSort(ByTime, a)) == StableSort(ByTime, a)
  {
    ByTimePreorder();
    SortSorts(ByTime, a);
    SortIdentity(ByTime, StableSort(ByTime, a));
  }

  lemma StripConcat(a: seq<Record>, b: seq<Record>)
    ensures Map(Strip(), a + b) == Map(Strip(), a) + Map(Strip(), b)
  {
  }

  /** The events of the first stage sort like the events given, up to identifiers. */
  lemma {:induction false} StageSorts(parts: seq<seq<Capture>>, session: string)
    requires forall p :: p in parts ==> Mergeable(p)
    ensures StableSort(ByTime, Map(Strip(), Events(Stage(parts, session))))
            == StableSort(ByTime, Map(Strip(), Events(Flatten(parts))))
  {
    if parts != [] {
      var init, last := parts[..|parts| - 1], parts[|parts| - 1];
      StageSorts(init, session);
      assert Stage(parts, session)[..|parts| - 1] == Stage(init, session);
      EventsConcat(Flatten(init), last);
      StageSortsLast(init, last, session);
    }
  }

  lemma StageSortsLast(init: seq<seq<Capture>>, last: seq<Capture>, session: string)
    requires Mergeable(last) && forall p :: p in init ==> Mergeable(p)
    requires StableSort(ByTime, Map(Strip(), Events(Stage(init, session))))
             == StableSort(ByTime, Map(Strip(), Events(Flatten(init))))
    ensures StableSort(ByTime, Map(Strip(), Events(Stage(init, session)) + Merged(last, session).events))
            == StableSort(ByTime, Map(Strip(), Events(Flatten(init)) + Events(last)))
  {
    hide StableSort, Merged, Mergeable, Stage, Flatten, Events;
    var staged := Merged(last, session).events;
    MergedEvents(last, session);
    SortTwice(Map(Strip(), Events(last)));
    StripConcat(Events(Stage(init, session)), staged);
    StripConcat(Events(Flatten(init)), Events(last));
    SortsAlike(Map(Strip(), Events(Stage(init, session))), Map(Strip(), Events(Flatten(init))),
               Map(Strip(), staged), Map(Strip(), Events(last)));
  }

  /** Some event belongs to process `pid`. */
  ghost predicate Has(events: seq<Record>, pid: nat) { exists e :: e in events && e.pid == pid }

  lemma OneProcessIff(events: seq<Record>)
    ensures OneProcess(events) <==> forall p, q :: Has(events, p) && Has(events, q) ==> p == q
  {
    if events != [] { assert Has(events, events[0].pid); }
    forall e | e in events ensures Has(events, e.pid) {}
  }

  lemma HasConcat(a: seq<Record>, b: seq<Record>, pid: nat)
    ensures Has(a + b, pid) <==> Has(a, pid) || Has(b, pid)
  {
  }

  lemma HasMerged(captures: seq<Capture>, session: string, pid: nat)
    requires Mergeable(captures)
    ensures Has(Merged(captures, session).events, pid) <==> Has(Events(captures), pid)
  {
    hide StableSort, Mergeable, Total, Events;
    var events := Events(captures);
    var sorted := StableSort(ByTime, events);
    SortPermutes(ByTime, events);
    var merged := Renumber(sorted, session);
    assert forall i :: 0 <= i < |sorted| ==> merged[i].pid == sorted[i].pid;
    if e :| e in sorted && e.pid == pid {
      var i :| 0 <= i < |sorted| && sorted[i] == e;
      assert merged[i] in merged;
    }
    if e :| e in merged && e.pid == pid {
      var i :| 0 <= i < |merged| && merged[i] == e;
      assert sorted[i] in sorted;
    }
  }

  lemma {:induction false} HasStage(parts: seq<seq<Capture>>, session: string, pid: nat)
    requires forall p :: p in parts ==> Mergeable(p)
    ensures Has(Events(Stage(parts, session)), pid) <==> Has(Events(Flatten(parts)), pid)
  {
    hide Merged, Mergeable, Has;
    if parts != [] {
      var init, last := parts[..|parts| - 1], parts[|parts| - 1];
      HasStage(init, session, pid);
      assert Stage(parts, session)[..|parts| - 1] == Stage(init, session);
      EventsConcat(Flatten(init), last);
      HasMerged(last, session, pid);
      HasConcat(Events(Stage(init, session)), Merged(last, session).events, pid);
      HasConcat(Events(Flatten(init)), Events(last), pid);
    }
  }

  lemma ConcatMergeable(a: seq<Capture>, b: seq<Capture>)
    requires Mergeable(a + b)
    ensures Mergeable(a) && Mergeable(b)
  {
    TotalConcat(a, b);
    EventsConcat(a, b);
    PlusLaws(Total(a), Total(b), NONE);
    hide Total, Plus, Fits, Events;
    var all := Events(a) + Events(b);
    assert forall e :: e in Events(a) ==> e in all;
    assert forall e :: e in Events(b) ==> e in all;
    forall e | e in Events(a) ensures e.pid == Events(a)[0].pid { assert Events(a)[0] in all; }
    forall e | e in Events(b) ensures e.pid == Events(b)[0].pid { assert Events(b)[0] in all; }
  }

  /** If everything can be merged at once, every part can be merged on its own. */
  lemma {:induction false} PartsMergeable(parts: seq<seq<Capture>>, p: seq<Capture>)
    requires Mergeable(Flatten(parts)) && p in parts
    ensures Mergeable(p)
  {
    hide Mergeable;
    var init, last := parts[..|parts| - 1], parts[|parts| - 1];
    ConcatMergeable(Flatten(init), last);
    if p != last { PartsMergeable(init, p); }
  }

  /** Merging in two stages succeeds if and only if merging at once does, and gives the same capture. */
  lemma MergeInStages(parts: seq<seq<Capture>>, first: string, session: string)
    ensures Mergeable(Flatten(parts)) <==>
              (forall p :: p in parts ==> Mergeable(p)) && Mergeable(Stage(parts, first))
    ensures Mergeable(Flatten(parts)) ==>
              Merged(Stage(parts, first), session) == Merged(Flatten(parts), session)
  {
    if Mergeable(Flatten(parts)) {
      forall p | p in parts ensures Mergeable(p) { PartsMergeable(parts, p); }
    }
    if forall p :: p in parts ==> Mergeable(p) {
      var staged, all := Events(Stage(parts, first)), Events(Flatten(parts));
      StageTotal(parts, first);
      forall pid ensures Has(staged, pid) <==> Has(all, pid) { HasStage(parts, first, pid); }
      OneProcessIff(staged);
      OneProcessIff(all);
      hide OneProcess, Total, Has, Stage, Flatten, Events, Fits;
      StageSorts(parts, first);
      RenumberSorted(staged, all, session);
    }
  }

  lemma RenumberSorted(a: seq<Record>, b: seq<Record>, session: string)
    requires StableSort(ByTime, Map(Strip(), a)) == StableSort(ByTime, Map(Strip(), b))
    ensures Renumber(StableSort(ByTime, a), session) == Renumber(StableSort(ByTime, b), session)
  {
    MapSort(ByTime, ByTime, Strip(), a);
    MapSort(ByTime, ByTime, Strip(), b);
    RenumberStripped(StableSort(ByTime, a), StableSort(ByTime, b), session);
  }

  // The merge itself

  lemma OneMore(captures: seq<Capture>, i: nat)
    requires i < |captures|
    ensures Total(captures[..i + 1]) == Plus(Total(captures[..i]), Own(captures[i]))
    ensures Events(captures[..i + 1]) == Events(captures[..i]) + captures[i].events
  {
    hide Plus, Own;
    assert captures[..i + 1][..i] == captures[..i];
  }

  lemma Prefix(captures: seq<Capture>, i: nat)
    requires i < |captures|
    ensures Total(captures[..i + 1]) == Plus(Total(captures[..i]), Own(captures[i]))
    ensures Events(captures[..i + 1]) == Events(captures[..i]) + captures[i].events
    ensures Fits(Total(captures)) ==> Fits(Total(captures[..i + 1]))
    ensures Events(captures[..i + 1]) <= Events(captures)
  {
    hide *;
    var done, rest := captures[..i + 1], captures[i + 1..];
    assert captures == done + rest;
    OneMore(captures, i);
    TotalConcat(done, rest);
    EventsConcat(done, rest);
    PlusLaws(Total(done), Total(rest), NONE);
  }

  function Counters(dropped: Word, unknown: Word, limitReached: Option<Word>, failed: bool, cupti: Option<Statistics>): (t: Totals) {
    Own(Capture(dropped, unknown, limitReached, failed, cupti, []))
  }

  /** Adds one capture's statistics; nothing if a sum overflows. */
  method AddStatistics(existing: Option<Statistics>, more: Option<Statistics>) returns (r: Option<Option<Statistics>>)
    ensures var sum := Both(Counters(0, 0, None, false, existing).cupti, Counters(0, 0, None, false, more).cupti);
      && (r.None? <==> !FitsSums(sum))
      && (r.Some? ==> Counters(0, 0, None, false, r.value).cupti == sum)
  {
    if more.None? { return Some(existing); }
    if existing.None? { return Some(more); }
    var a, b := existing.value, more.value;
    if a.capacity + b.capacity >= U64 { return None; }
    if a.observed + b.observed >= U64 { return None; }
    if a.dropped + b.dropped >= U64 { return None; }
    return Some(Some(Statistics(a.complete && b.complete, a.capacity + b.capacity, a.observed + b.observed, a.dropped + b.dropped)));
  }

  ghost predicate Target(target: Option<nat>, events: seq<Record>) {
    OneProcess(events) && target == if events == [] then None else Some(events[0].pid)
  }

  /** The process of the first event that does not belong to `pid`. */
  function FirstStranger(events: seq<Record>, pid: nat): (r: Option<nat>) {
    if events == [] then None
    else if events[0].pid != pid then Some(events[0].pid)
    else FirstStranger(events[1..], pid)
  }

  lemma {:induction false} StrangerAfter(same: seq<Record>, e: Record, rest: seq<Record>, pid: nat)
    requires (forall x :: x in same ==> x.pid == pid) && e.pid != pid
    ensures FirstStranger(same + [e] + rest, pid) == Some(e.pid)
  {
    var all := same + [e] + rest;
    if same != [] {
      assert all[0] == same[0] && all[0] in same;
      assert all[1..] == same[1..] + [e] + rest;
      StrangerAfter(same[1..], e, rest, pid);
    }
  }

  /** Appends one capture's events up to the first one of another process. */
  method AppendEvents(events: seq<Record>, more: seq<Record>, target: Option<nat>)
    returns (all: seq<Record>, pid: Option<nat>, stranger: Option<nat>)
    requires Target(target, events)
    ensures stranger.None? ==> all == events + more && Target(pid, all)
    ensures stranger.Some? ==> pid.Some? && events + more != [] && pid.value == (events + more)[0].pid
                               && stranger.value != pid.value && Has(events + more, stranger.value)
                               && FirstStranger(events + more, pid.value) == stranger
  {
    all, pid, stranger := events, target, None;
    for i := 0 to |more|
      invariant all == events + more[..i] && Target(pid, all)
    {
      var e := more[i];
      assert events + more[..i + 1] == all + [e];
      if pid.Some? {
        if e.pid != pid.value {
          assert (events + more)[0] == all[0];
          assert more[i] in events + more;
          StrangerAfter(all, e, more[i + 1..], pid.value);
          assert events + more == all + [e] + more[i + 1..];
          return all, pid, Some(e.pid);
        }
      } else {
        pid := Some(e.pid);
      }
      all := all + [e];
    }
    assert more[..|more|] == more;
  }

  method RenumberEvents(events: seq<Record>, session: string) returns (r: seq<Record>)
    ensures r == Renumber(events, session)
  {
    r := [];
    for i := 0 to |events|
      invariant |r| == i && forall k :: 0 <= k < i ==> r[k] == Renumbered(events[k], k, session)
    {
      r := r + [events[i].(session := session, sequence := i, id := Numbered(i))];
    }
  }

  /** How merging fails at the first capture that cannot be added: if its counters overflow a sum, with that error,
      and otherwise with the first event of another process. */
  ghost predicate FailsAt(captures: seq<Capture>, i: nat, error: Error) {
    && i < |captures| && Mergeable(captures[..i])
    && var events := Events(captures[..i + 1]);
       if !Fits(Total(captures[..i + 1])) then error == CounterOverflow
       else && events != [] && FirstStranger(events, events[0].pid).Some?
            && error == TargetMismatch(events[0].pid, FirstStranger(events, events[0].pid).value)
  }

  lemma FailsOverflow(captures: seq<Capture>, i: nat)
    requires i < |captures| && Mergeable(captures[..i]) && !Fits(Total(captures[..i + 1]))
    ensures FailsAt(captures, i, CounterOverflow) && !Mergeable(captures)
  {
    hide Total, Events;
    Prefix(captures, i);
  }

  lemma FailsMismatch(captures: seq<Capture>, i: nat, expected: nat, actual: nat)
    requires i < |captures| && Mergeable(captures[..i]) && Fits(Total(captures[..i + 1]))
    requires var events := Events(captures[..i]) + captures[i].events;
      events != [] && expected == events[0].pid && actual != expected && Has(events, actual)
      && FirstStranger(events, expected) == Some(actual)
    ensures FailsAt(captures, i, TargetMismatch(expected, actual)) && !Mergeable(captures)
  {
    hide Total, Events;
    Prefix(captures, i);
    var events := Events(captures[..i + 1]);
    assert forall e :: e in events ==> e in Events(captures);
    OneProcessIff(Events(captures));
    assert Has(Events(captures), expected) by { assert events[0] in Events(captures); }
    assert Has(Events(captures), actual);
  }

  method Merge(captures: seq<Capture>, session: string) returns (r: Result)
    ensures r.Ok? <==> Mergeable(captures)
    ensures r.Ok? ==> r.value == Merged(captures, session)
    ensures r.Ok? ==> forall i :: 0 <= i < |r.value.events| ==>
              r.value.events[i].sequence == i && r.value.events[i].id == Numbered(i) && r.value.events[i].session == session
    ensures r.Err? ==> exists i: nat :: FailsAt(captures, i, r.error)
  {
    hide Total, Events, StableSort, FailsAt, Target, Renumber, Has, OneProcess, FirstStranger;
    var dropped: Word, unknown: Word, limitReached: Option<Word>, failed := 0, 0, None, false;
    var cupti: Option<Statistics> := None;
    var events: seq<Record>, target: Option<nat> := [], None;
    Begin();
    assert captures[..0] == [];
    for i := 0 to |captures|
      invariant Counters(dropped, unknown, limitReached, failed, cupti) == Total(captures[..i])
      invariant events == Events(captures[..i]) && Target(target, events)
    {
      var c := captures[i];
      OneMore(captures, i);
      TargetOne(target, events);
      if !Fits(Total(captures[..i + 1])) { FailsOverflow(captures, i); }
      if dropped + c.dropped >= U64 { return Err(CounterOverflow); }
      dropped := dropped + c.dropped;
      if unknown + c.unknown >= U64 { return Err(CounterOverflow); }
      unknown := unknown + c.unknown;
      limitReached := if limitReached.None? then c.limitReached
                      else if c.limitReached.None? then limitReached
                      else Some(Max(limitReached.value, c.limitReached.value));
      failed := failed || c.failed;
      var sum := AddStatistics(cupti, c.cupti);
      if sum.None? { return Err(CounterOverflow); }
      cupti := sum.value;
      var all, pid, stranger := AppendEvents(events, c.events, target);
      if stranger.Some? {
        FailsMismatch(captures, i, pid.value, stranger.value);
        return Err(TargetMismatch(pid.value, stranger.value));
      }
      events, target := all, pid;
    }
    assert captures[..|captures|] == captures;
    TargetOne(target, events);
    var sorted := StableSort(ByTime, events);
    var numbered := RenumberEvents(sorted, session);
    r := Ok(Capture(dropped, unknown, limitReached, failed, cupti, numbered));
    MergedEvents(captures, session);
  }

  lemma Begin()
    ensures Total([]) == NONE && Events([]) == [] && Target(None, [])
  {
  }

  lemma TargetOne(target: Option<nat>, events: seq<Record>)
    requires Target(target, events)
    ensures OneProcess(events)
  {
  }
}

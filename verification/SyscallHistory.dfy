/** What the kernel-side aggregation has sampled, read off the list of handled entries and exits. */
module SyscallHistory {
  import opened Common
  import opened SyscallAggregate

  /** The step stores a start for the thread. */
  predicate Enters(step: Step, t: nat) { step.Entry? && step.number >= 0 && step.stored && step.thread == t }

  /** The step is an exit of the thread. */
  predicate Leaves(step: Step, t: nat) { step.Exit? && step.thread == t }

  /** The step stores another thread's start, and the map evicts this thread's for it. */
  predicate Evicts(step: Step, t: nat) {
    step.Entry? && step.number >= 0 && step.stored && step.thread != t && t in step.lost
  }

  /** The thread's start stored at `j` is still there before step `i`. */
  ghost predicate OpenFrom(steps: seq<Step>, t: nat, j: nat, i: nat)
    requires i <= |steps|
  {
    && j < i && Enters(steps[j], t)
    && (forall k :: j < k < i ==> !Enters(steps[k], t) && !Leaves(steps[k], t) && !Evicts(steps[k], t))
  }

  /** The start of the thread that is there after the steps. */
  function Latest(steps: seq<Step>, t: nat): (j: Option<nat>)
    ensures j.Some? ==> j.value < |steps| && Enters(steps[j.value], t)
  {
    if steps == [] then None
    else
      var n := |steps| - 1;
      if Enters(steps[n], t) then Some(n)
      else if Leaves(steps[n], t) || Evicts(steps[n], t) then None
      else Latest(steps[..n], t)
  }

  lemma {:induction false} LatestIff(steps: seq<Step>, t: nat, j: nat)
    ensures Latest(steps, t) == Some(j) <==> OpenFrom(steps, t, j, |steps|)
  {
    hide Enters, Leaves, Evicts;
    if steps != [] {
      var n := |steps| - 1;
      LatestIff(steps[..n], t, j);
      assert forall k :: 0 <= k < n ==> steps[..n][k] == steps[k];
      EntersOnly(steps[n], t);
    }
  }

  lemma EntersOnly(step: Step, t: nat)
    ensures Enters(step, t) ==> !Leaves(step, t) && !Evicts(step, t)
  {
  }

  lemma OpenPrefix(steps: seq<Step>, t: nat, j: nat, i: nat)
    requires i <= |steps|
    ensures OpenFrom(steps[..i], t, j, i) <==> OpenFrom(steps, t, j, i)
  {
    hide Enters, Leaves, Evicts;
    assert forall k :: 0 <= k < i ==> steps[..i][k] == steps[k];
  }

  /** The map of starts is what the steps left open. */
  ghost predicate Tracks(s: State, steps: seq<Step>) {
    forall t: nat :: TracksAt(s, steps, t)
  }

  ghost predicate TracksAt(s: State, steps: seq<Step>, t: nat) {
    var j := Latest(steps, t);
    && (t in s.inflight <==> j.Some?)
    && (j.Some? ==> t in s.inflight && s.inflight[t] == Start(steps[j.value].now, steps[j.value].number % U32))
  }

  lemma LatestSnoc(steps: seq<Step>, step: Step, t: nat)
    ensures Latest(steps + [step], t)
            == if Enters(step, t) then Some(|steps|)
               else if Leaves(step, t) || Evicts(step, t) then None else Latest(steps, t)
  {
    assert (steps + [step])[..|steps|] == steps;
  }

  lemma TracksStep(s: State, cpus: nat, steps: seq<Step>, step: Step, t: nat)
    requires Inv(s, cpus) && (step.Exit? ==> step.cpu < cpus) && TracksAt(s, steps, t)
    ensures TracksAt(Next(s, cpus, step), steps + [step], t)
  {
    hide Inv, Latest, SlotsOf, Add, Elapsed;
    InvShaped(s, cpus);
    LatestSnoc(steps, step, t);
  }

  // The samples

  /** A call in the steps: an exit, and the entry that it closes. */
  datatype Call = Call(entry: nat, exit: nat)

  ghost predicate IsCall(steps: seq<Step>, c: Call) {
    c.exit < |steps| && steps[c.exit].Exit? && OpenFrom(steps, steps[c.exit].thread, c.entry, c.exit)
  }

  /** What is sampled of a call. */
  ghost predicate Samples(steps: seq<Step>, c: Call, x: Sample) {
    && IsCall(steps, c)
    && x == Sample(steps[c.entry].number % U32, steps[c.exit].cpu,
                   (steps[c.exit].now - steps[c.entry].now) % U64, steps[c.exit].error)
  }

  /** One sample per call, in the order of the exits. */
  ghost predicate Recorded(steps: seq<Step>, calls: seq<Call>, samples: seq<Sample>) {
    && |calls| == |samples|
    && (forall k :: 0 <= k < |calls| ==> Samples(steps, calls[k], samples[k]))
    && (forall k, l :: 0 <= k < l < |calls| ==> calls[k].exit < calls[l].exit)
  }

  /** A sample of the system call before step `i`. */
  ghost predicate Known(calls: seq<Call>, samples: seq<Sample>, number: nat, i: nat)
    requires |calls| == |samples|
  {
    exists k :: 0 <= k < |calls| && calls[k].exit < i && samples[k].number == number
  }

  /** A call is sampled if and only if its group was admitted or known before. */
  ghost predicate Complete(steps: seq<Step>, calls: seq<Call>, samples: seq<Sample>)
    requires |calls| == |samples|
  {
    forall c :: IsCall(steps, c) ==>
      (c in calls <==> steps[c.exit].admitted || Known(calls, samples, steps[c.entry].number % U32, c.exit))
  }

  lemma CallsStay(steps: seq<Step>, step: Step, c: Call)
    ensures IsCall(steps + [step], c)
            <==> if c.exit == |steps| then step.Exit? && Latest(steps, step.thread) == Some(c.entry) else IsCall(steps, c)
  {
    hide Enters, Leaves, Evicts, OpenFrom;
    var more := steps + [step];
    if c.exit <= |steps| {
      assert more[..c.exit] == steps[..c.exit];
      OpenPrefix(more, more[c.exit].thread, c.entry, c.exit);
      OpenPrefix(steps, more[c.exit].thread, c.entry, c.exit);
    }
    if c.exit == |steps| {
      assert more[..|steps|] == steps;
      LatestIff(steps, step.thread, c.entry);
    }
  }

  lemma SamplesStay(steps: seq<Step>, step: Step, c: Call, x: Sample)
    requires Samples(steps, c, x)
    ensures Samples(steps + [step], c, x)
  {
    CallsStay(steps, step, c);
  }

  lemma RecordedStays(steps: seq<Step>, step: Step, calls: seq<Call>, samples: seq<Sample>)
    requires Recorded(steps, calls, samples)
    ensures Recorded(steps + [step], calls, samples)
  {
    hide Samples;
    forall k | 0 <= k < |calls| ensures Samples(steps + [step], calls[k], samples[k]) {
      SamplesStay(steps, step, calls[k], samples[k]);
    }
  }

  lemma RecordedMore(steps: seq<Step>, step: Step, calls: seq<Call>, samples: seq<Sample>, c: Call, x: Sample)
    requires Recorded(steps, calls, samples) && Samples(steps + [step], c, x) && c.exit == |steps|
    ensures Recorded(steps + [step], calls + [c], samples + [x])
  {
    RecordedStays(steps, step, calls, samples);
    forall k | 0 <= k < |calls| ensures calls[k].exit < c.exit { assert Samples(steps, calls[k], samples[k]); }
    hide Samples;
  }

  /** The last step adds no call, or one that is not sampled. */
  lemma CompleteStays(steps: seq<Step>, step: Step, calls: seq<Call>, samples: seq<Sample>)
    requires Recorded(steps, calls, samples) && Complete(steps, calls, samples)
    requires step.Exit? ==>
               var j := Latest(steps, step.thread);
               j.None? || (!step.admitted && !Known(calls, samples, steps[j.value].number % U32, |steps|))
    ensures Complete(steps + [step], calls, samples)
  {
    hide Known, Leaves, Evicts;
    var more := steps + [step];
    forall c | IsCall(more, c)
      ensures c in calls <==> more[c.exit].admitted || Known(calls, samples, more[c.entry].number % U32, c.exit)
    {
      CallsStay(steps, step, c);
      if c in calls {
        var k :| 0 <= k < |calls| && calls[k] == c;
        assert Samples(steps, calls[k], samples[k]);
      }
    }
  }

  lemma CompleteMore(steps: seq<Step>, step: Step, calls: seq<Call>, samples: seq<Sample>, c: Call, x: Sample)
    requires Recorded(steps, calls, samples) && Complete(steps, calls, samples)
    requires IsCall(steps + [step], c) && c.exit == |steps|
    requires step.admitted || Known(calls, samples, steps[c.entry].number % U32, |steps|)
    ensures Complete(steps + [step], calls + [c], samples + [x])
  {
    hide Known, Leaves, Evicts;
    var more := steps + [step];
    forall b | IsCall(more, b)
      ensures b in calls + [c]
              <==> more[b.exit].admitted || Known(calls + [c], samples + [x], more[b.entry].number % U32, b.exit)
    {
      CallsStay(steps, step, b);
      CallsStay(steps, step, c);
      KnownMore(calls, samples, c, x, more[b.entry].number % U32, b.exit);
    }
  }

  lemma KnownMore(calls: seq<Call>, samples: seq<Sample>, c: Call, x: Sample, number: nat, i: nat)
    requires |calls| == |samples| && i <= c.exit
    ensures Known(calls + [c], samples + [x], number, i) <==> Known(calls, samples, number, i)
  {
    if Known(calls + [c], samples + [x], number, i) {
      var k :| 0 <= k < |calls| + 1 && (calls + [c])[k].exit < i && (samples + [x])[k].number == number;
      assert k < |calls|;
    }
    if Known(calls, samples, number, i) {
      var k :| 0 <= k < |calls| && calls[k].exit < i && samples[k].number == number;
      assert (calls + [c])[k].exit < i && (samples + [x])[k].number == number;
    }
  }

  /** A group exists if and only if its system call was sampled. */
  lemma GroupKnown(s: State, cpus: nat, steps: seq<Step>, calls: seq<Call>, number: nat)
    requires Inv(s, cpus) && Recorded(steps, calls, s.samples)
    ensures number in s.groups <==> Known(calls, s.samples, number, |steps|)
  {
    hide Sorting.Filter, Fold, OpenFrom;
    assert forall k :: 0 <= k < |calls| ==> Samples(steps, calls[k], s.samples[k]);
    if number in s.groups {
      var x :| x in s.samples && x.number == number;
      var k :| 0 <= k < |calls| && s.samples[k] == x;
      assert calls[k].exit < |steps|;
    }
  }

  ghost predicate Accounts(s: State, steps: seq<Step>, calls: seq<Call>) {
    Tracks(s, steps) && Recorded(steps, calls, s.samples) && Complete(steps, calls, s.samples)
  }

  /** What an exit does to the samples. */
  lemma ExitSamples(s: State, cpus: nat, step: Step)
    requires Inv(s, cpus) && (step.Exit? ==> step.cpu < cpus)
    ensures Next(s, cpus, step).samples
            == if step.Exit? && step.thread in s.inflight && (s.inflight[step.thread].number in s.groups || step.admitted)
               then s.samples + [Sample(s.inflight[step.thread].number, step.cpu,
                                        (step.now - s.inflight[step.thread].timestampNs) % U64, step.error)]
               else s.samples
  {
    hide Inv, SlotsOf, Add;
    InvShaped(s, cpus);
  }

  lemma AccountsStep(s: State, cpus: nat, steps: seq<Step>, step: Step, calls: seq<Call>) returns (more: seq<Call>)
    requires Inv(s, cpus) && (step.Exit? ==> step.cpu < cpus) && Accounts(s, steps, calls)
    ensures Inv(Next(s, cpus, step), cpus) && Accounts(Next(s, cpus, step), steps + [step], more)
  {
    hide Inv, Next, Recorded, Complete, Known, Latest, TracksAt;
    StepKeeps(s, cpus, step);
    InvShaped(s, cpus);
    forall t: nat ensures TracksAt(Next(s, cpus, step), steps + [step], t) {
      assert TracksAt(s, steps, t);
      TracksStep(s, cpus, steps, step, t);
    }
    more := CallStep(s, cpus, steps, step, calls);
  }

  lemma CallStep(s: State, cpus: nat, steps: seq<Step>, step: Step, calls: seq<Call>) returns (more: seq<Call>)
    requires Inv(s, cpus) && (step.Exit? ==> step.cpu < cpus) && Accounts(s, steps, calls)
    ensures Recorded(steps + [step], more, Next(s, cpus, step).samples)
    ensures Complete(steps + [step], more, Next(s, cpus, step).samples)
  {
    hide Inv, Next, Recorded, Complete, Known, Latest, OpenFrom;
    InvShaped(s, cpus);
    ExitSamples(s, cpus, step);
    var j := if step.Exit? then Latest(steps, step.thread) else None;
    if step.Exit? { assert TracksAt(s, steps, step.thread); }
    if j.Some? { GroupKnown(s, cpus, steps, calls, steps[j.value].number % U32); }
    var x := if j.Some? then Sample(steps[j.value].number % U32, step.cpu, (step.now - steps[j.value].now) % U64, step.error)
             else Sample(0, 0, 0, false);
    RecordedLength(steps, calls, s.samples);
    if j.Some? && (step.admitted || Known(calls, s.samples, steps[j.value].number % U32, |steps|)) {
      var c := Call(j.value, |steps|);
      CallsStay(steps, step, c);
      RecordedMore(steps, step, calls, s.samples, c, x);
      CompleteMore(steps, step, calls, s.samples, c, x);
      more := calls + [c];
    } else {
      RecordedStays(steps, step, calls, s.samples);
      CompleteStays(steps, step, calls, s.samples);
      more := calls;
    }
  }

  lemma RecordedLength(steps: seq<Step>, calls: seq<Call>, samples: seq<Sample>)
    requires Recorded(steps, calls, samples)
    ensures |calls| == |samples|
  {
  }

  lemma {:induction false} RunAccounts(cpus: nat, steps: seq<Step>) returns (calls: seq<Call>)
    requires Legal(cpus, steps)
    ensures Accounts(Run(cpus, steps), steps, calls)
    decreases |steps|
  {
    hide Accounts, Inv, Next;
    if steps == [] {
      calls := [];
      NothingRecorded();
    } else {
      var n := |steps| - 1;
      var before := RunAccounts(cpus, steps[..n]);
      InvShaped(Run(cpus, steps[..n]), cpus);
      calls := AccountsStep(Run(cpus, steps[..n]), cpus, steps[..n], steps[n], before);
      assert steps == steps[..n] + [steps[n]];
    }
  }

  lemma NothingRecorded()
    ensures Accounts(EMPTY, [], [])
  {
  }

  /** In every run the samples are those of the calls in its steps, in the order of their exits: an exit and the
      last stored entry of its thread, with no exit, entry or eviction of the thread in between.  A call is
      sampled if and only if its group was admitted or an earlier call of the same number was sampled. */
  lemma SamplesAreCalls(cpus: nat, steps: seq<Step>) returns (calls: seq<Call>)
    requires Legal(cpus, steps)
    ensures Recorded(steps, calls, Run(cpus, steps).samples) && Complete(steps, calls, Run(cpus, steps).samples)
  {
    calls := RunAccounts(cpus, steps);
  }

  /** The starts in flight after a run are those its steps left open. */
  lemma InflightIsOpen(cpus: nat, steps: seq<Step>, t: nat, j: nat)
    requires Legal(cpus, steps) && OpenFrom(steps, t, j, |steps|)
    ensures t in Run(cpus, steps).inflight
    ensures Run(cpus, steps).inflight[t] == Start(steps[j].now, steps[j].number % U32)
  {
    hide Run, OpenFrom;
    var calls := RunAccounts(cpus, steps);
    LatestIff(steps, t, j);
    assert TracksAt(Run(cpus, steps), steps, t);
  }

  // The counters

  /** Stored entries, entries that the map refused, exits that close an entry, and exits that do not. */
  datatype Tally = Tally(stored: nat, refused: nat, closing: nat, stray: nat)

  function TallyOf(steps: seq<Step>): (c: Tally) {
    if steps == [] then Tally(0, 0, 0, 0)
    else
      var n := |steps| - 1;
      var c := TallyOf(steps[..n]);
      match steps[n]
      case Entry(_, number, _, stored, _) =>
        if number < 0 then c else if stored then c.(stored := c.stored + 1) else c.(refused := c.refused + 1)
      case Exit(t, _, _, _, _) =>
        if Latest(steps[..n], t).Some? then c.(closing := c.closing + 1) else c.(stray := c.stray + 1)
  }

  /** The counters of a run are those of its steps; a closing exit without a sample is a drop. */
  lemma {:induction false} CountersTell(cpus: nat, steps: seq<Step>)
    requires Legal(cpus, steps)
    ensures var s, c := Run(cpus, steps), TallyOf(steps);
      && s.entries == c.stored && s.exits == c.closing && s.unmatchedExits == c.stray
      && s.droppedAggregates == c.refused + (c.closing - |s.samples|)
    decreases |steps|
  {
    if steps != [] {
      var n := |steps| - 1;
      CountersTell(cpus, steps[..n]);
      var calls := RunAccounts(cpus, steps[..n]);
      var s := Run(cpus, steps[..n]);
      if steps[n].Exit? { assert TracksAt(s, steps[..n], steps[n].thread); }
      CountersStep(s, cpus, steps[n]);
    }
  }

  lemma CountersStep(s: State, cpus: nat, step: Step)
    requires Inv(s, cpus) && (step.Exit? ==> step.cpu < cpus)
    ensures Shaped(s.groups, cpus)
    ensures var s' := Next(s, cpus, step);
      match step
      case Entry(_, number, _, stored, _) =>
        && s'.entries == s.entries + (if number >= 0 && stored then 1 else 0) && s'.exits == s.exits
        && s'.droppedAggregates == s.droppedAggregates + (if number >= 0 && !stored then 1 else 0)
        && s'.unmatchedExits == s.unmatchedExits && s'.samples == s.samples
      case Exit(t, _, _, _, _) =>
        && s'.entries == s.entries && s'.exits == s.exits + (if t in s.inflight then 1 else 0)
        && s'.unmatchedExits == s.unmatchedExits + (if t in s.inflight then 0 else 1)
        && s'.droppedAggregates + |s'.samples| == s.droppedAggregates + |s.samples| + (if t in s.inflight then 1 else 0)
  {
    hide Inv, SlotsOf, Add, Elapsed, Gone, StartOf;
    InvShaped(s, cpus);
  }
}

/** Which activities an aggregate table counts, read off the list of its steps. */
module AggregateHistory {
  import opened Common
  import opened AggregateTable
  import LinearProbing

  lemma {:induction false} RunSnoc(hash: Key -> nat, t: Table, steps: seq<Step>, step: Step)
    ensures Legal(hash, t, steps + [step]) <==> Legal(hash, t, steps) && Enabled(Run(hash, t, steps), step)
    ensures Legal(hash, t, steps + [step]) ==> Run(hash, t, steps + [step]) == Exec(hash, Run(hash, t, steps), step)
    decreases |steps|
  {
    hide Enabled, Exec;
    if steps == [] {
      assert ([] + [step])[1..] == [] && ([] + [step])[0] == step;
    } else {
      assert (steps + [step])[1..] == steps[1..] + [step];
      if Enabled(t, steps[0]) { RunSnoc(hash, Exec(hash, t, steps[0]), steps[1..], step); }
    }
  }

  lemma {:induction false} LegalPrefix(hash: Key -> nat, t: Table, steps: seq<Step>, k: nat)
    requires Legal(hash, t, steps) && k <= |steps|
    ensures Legal(hash, t, steps[..k])
    decreases |steps| - k
  {
    if k < |steps| {
      LegalPrefix(hash, t, steps, k + 1);
      assert steps[..k + 1] == steps[..k] + [steps[k]];
      RunSnoc(hash, t, steps[..k], steps[k]);
    } else {
      assert steps[..k] == steps;
    }
  }

  /** Step `k` begins an activity with a start and an end in order, and the capture is active. */
  ghost predicate Counts(hash: Key -> nat, t: Table, steps: seq<Step>, k: nat)
    requires Legal(hash, t, steps) && k < |steps|
  {
    LegalPrefix(hash, t, steps, k);
    && steps[k].Begin? && 0 < steps[k].call.startNs <= steps[k].call.endNs
    && Run(hash, t, steps[..k]).captureState == Active
  }

  /** The calls of the table are those begun at `begun`, in this order. */
  ghost predicate BegunAt(steps: seq<Step>, calls: seq<CallState>, begun: seq<nat>) {
    && |begun| == |calls|
    && (forall i :: 0 <= i < |begun| ==> begun[i] < |steps| && steps[begun[i]] == Begin(calls[i].call))
    && (forall i, j :: 0 <= i < j < |begun| ==> begun[i] < begun[j])
  }

  lemma StepCalls(hash: Key -> nat, t: Table, step: Step)
    requires Enabled(t, step)
    ensures var t' := Exec(hash, t, step);
      if step.Begin? && t.captureState == Active && 0 < step.call.startNs <= step.call.endNs
      then |t'.calls| == |t.calls| + 1 && t'.calls[|t.calls|].call == step.call
           && forall i :: 0 <= i < |t.calls| ==> t'.calls[i].call == t.calls[i].call
      else |t'.calls| == |t.calls| && forall i :: 0 <= i < |t.calls| ==> t'.calls[i].call == t.calls[i].call
  {
    hide LinearProbing.SlotIndex, KeyOf, Duration;
  }

  lemma BegunNext(steps: seq<Step>, step: Step, calls: seq<CallState>, begun: seq<nat>, calls': seq<CallState>)
    requires BegunAt(steps, calls, begun)
    requires forall i :: 0 <= i < |calls| ==> i < |calls'| && calls'[i].call == calls[i].call
    ensures |calls'| == |calls| ==> BegunAt(steps + [step], calls', begun)
    ensures |calls'| == |calls| + 1 && step == Begin(calls'[|calls|].call) ==>
              BegunAt(steps + [step], calls', begun + [|steps|])
  {
  }

  lemma CountsPrefix(hash: Key -> nat, t: Table, steps: seq<Step>, step: Step, k: nat)
    requires Legal(hash, t, steps + [step]) && Legal(hash, t, steps) && k < |steps|
    ensures Counts(hash, t, steps + [step], k) <==> Counts(hash, t, steps, k)
  {
    hide Legal, Run;
    assert (steps + [step])[..k] == steps[..k];
  }

  lemma CountsLast(hash: Key -> nat, t: Table, steps: seq<Step>, step: Step)
    requires Legal(hash, t, steps + [step]) && Legal(hash, t, steps)
    ensures Counts(hash, t, steps + [step], |steps|)
            <==> step.Begin? && 0 < step.call.startNs <= step.call.endNs && Run(hash, t, steps).captureState == Active
  {
    hide Legal, Run;
    assert (steps + [step])[..|steps|] == steps;
  }

  ghost predicate BegunWhenCounted(hash: Key -> nat, t: Table, steps: seq<Step>, begun: seq<nat>)
    requires Legal(hash, t, steps)
  {
    forall k: nat :: k < |steps| ==> (k in begun <==> Counts(hash, t, steps, k))
  }

  lemma CountedNext(hash: Key -> nat, t: Table, steps: seq<Step>, step: Step, begun: seq<nat>)
    requires Legal(hash, t, steps + [step]) && Legal(hash, t, steps) && BegunWhenCounted(hash, t, steps, begun)
    requires forall k :: k in begun ==> k < |steps|
    ensures BegunWhenCounted(hash, t, steps + [step],
                             if Counts(hash, t, steps + [step], |steps|) then begun + [|steps|] else begun)
  {
    hide Legal, Run, Counts;
    forall k: nat | k < |steps| ensures Counts(hash, t, steps + [step], k) <==> Counts(hash, t, steps, k) {
      CountsPrefix(hash, t, steps, step, k);
    }
  }

  /** In every run the calls of the table are the activities that its steps began with their times in order while
      the capture was active, each once, in the order of their steps. */
  lemma {:induction false} CallsAreBegun(hash: Key -> nat, t: Table, capacity: nat, steps: seq<Step>) returns (begun: seq<nat>)
    requires Init(t, capacity) && Legal(hash, t, steps)
    ensures BegunAt(steps, Run(hash, t, steps).calls, begun)
    ensures BegunWhenCounted(hash, t, steps, begun)
  {
    if steps == [] {
      begun := [];
    } else {
      hide Exec, Enabled, Counts, BegunWhenCounted, Legal, Run, Init;
      var n := |steps| - 1;
      var init, step := steps[..n], steps[n];
      assert steps == init + [step];
      RunSnoc(hash, t, init, step);
      var before := CallsAreBegun(hash, t, capacity, init);
      StepCalls(hash, Run(hash, t, init), step);
      BegunNext(init, step, Run(hash, t, init).calls, before, Run(hash, t, steps).calls);
      CountsLast(hash, t, init, step);
      CountedNext(hash, t, init, step, before);
      begun := if Counts(hash, t, steps, n) then before + [n] else before;
    }
  }

  /** Nothing was lost: no call was dropped or overflowed, and there is no output error. */
  ghost predicate Lossless(t: Table) {
    !t.outputError && forall i :: 0 <= i < |t.calls| ==> !t.calls[i].phase.Dropped? && !t.calls[i].phase.Overflowed?
  }

  lemma StepLossless(hash: Key -> nat, t: Table, step: Step)
    requires Enabled(t, step) && (t.captureState == Active ==> Lossless(t))
    ensures var t' := Exec(hash, t, step);
      && (t'.captureState == Active ==> t.captureState == Active && Lossless(t'))
      && (t.outputError ==> t'.outputError)
  {
    hide LinearProbing.SlotIndex, KeyOf, Duration;
  }

  /** In every run a capture that is still active has lost nothing, and an overflow is never forgotten. */
  lemma {:induction false} ActiveLostNothing(hash: Key -> nat, t: Table, capacity: nat, steps: seq<Step>)
    requires Init(t, capacity) && Legal(hash, t, steps)
    ensures Run(hash, t, steps).captureState == Active ==> Lossless(Run(hash, t, steps))
    ensures !NoOverflow(Run(hash, t, steps)) ==> Run(hash, t, steps).outputError
  {
    hide Exec, Enabled, Lossless, NoOverflow;
    if steps == [] {
      assert Lossless(t) && NoOverflow(t) by { NothingLost(t, capacity); }
    } else {
      var n := |steps| - 1;
      assert steps == steps[..n] + [steps[n]];
      RunSnoc(hash, t, steps[..n], steps[n]);
      ActiveLostNothing(hash, t, capacity, steps[..n]);
      StepLossless(hash, Run(hash, t, steps[..n]), steps[n]);
      StepOverflow(hash, Run(hash, t, steps[..n]), steps[n]);
    }
  }

  lemma NothingLost(t: Table, capacity: nat)
    requires Init(t, capacity)
    ensures Lossless(t) && NoOverflow(t)
  {
  }

  lemma StepOverflow(hash: Key -> nat, t: Table, step: Step)
    requires Enabled(t, step) && (!NoOverflow(t) ==> t.outputError)
    ensures !NoOverflow(Exec(hash, t, step)) ==> Exec(hash, t, step).outputError
  {
    hide LinearProbing.SlotIndex, KeyOf, Duration;
  }
}

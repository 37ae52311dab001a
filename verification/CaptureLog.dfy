/** Which records a capture reserves, read off the list of its steps. */
module CaptureLog {
  import opened Common
  import opened CaptureStore

  lemma {:induction false} RunSnoc(s: State, steps: seq<Step>, step: Step)
    ensures Legal(s, steps + [step]) <==> Legal(s, steps) && Enabled(Run(s, steps), step)
    ensures Legal(s, steps + [step]) ==> Run(s, steps + [step]) == Exec(Run(s, steps), step)
    decreases |steps|
  {
    hide Enabled, Exec;
    if steps == [] {
      assert ([] + [step])[1..] == [] && ([] + [step])[0] == step;
    } else {
      assert (steps + [step])[1..] == steps[1..] + [step];
      if Enabled(s, steps[0]) { RunSnoc(Exec(s, steps[0]), steps[1..], step); }
    }
  }

  /** The record of the thread's last call, if the filter let it through. */
  function BegunBy(steps: seq<Step>, t: nat): (r: Option<Record>)
    ensures r.Some? ==> Begin(t, r.value, true) in steps
  {
    if steps == [] then None
    else
      var n := |steps| - 1;
      match steps[n]
      case Begin(u, record, matches) =>
        if u != t then BegunBy(steps[..n], t) else if matches then Some(record) else None
      case _ => BegunBy(steps[..n], t)
  }

  /** What the reservations of the steps are for, in their order. */
  function Reservations(steps: seq<Step>): (r: seq<Option<Record>>) {
    if steps == [] then []
    else
      var n := |steps| - 1;
      match steps[n]
      case Reserve(t) => Reservations(steps[..n]) + [BegunBy(steps[..n], t)]
      case _ => Reservations(steps[..n])
  }

  ghost predicate Logged(s: State, steps: seq<Step>) {
    && |s.log| == |Reservations(steps)|
    && (forall i :: 0 <= i < |s.log| ==> Reservations(steps)[i] == Some(s.log[i]))
    && (forall t :: t in s.producers && s.producers[t].Reserving? ==> BegunBy(steps, t) == Some(s.producers[t].record))
  }

  lemma LoggedStep(s: State, steps: seq<Step>, step: Step)
    requires Enabled(s, step) && Logged(s, steps)
    ensures Logged(Exec(s, step), steps + [step])
  {
    assert (steps + [step])[..|steps|] == steps;
  }

  /** In every run the log holds one record per reservation, in order: that of the thread's last call before it,
      which the filter let through. */
  lemma {:induction false} LogIsReservations(s: State, capacity: nat, steps: seq<Step>)
    requires Init(s, capacity) && Legal(s, steps)
    ensures Logged(Run(s, steps), steps)
  {
    hide Logged, Enabled, Exec;
    if steps == [] {
      assert Logged(s, []) by { NothingLogged(s, capacity); }
    } else {
      var n := |steps| - 1;
      assert steps == steps[..n] + [steps[n]];
      RunSnoc(s, steps[..n], steps[n]);
      LogIsReservations(s, capacity, steps[..n]);
      LoggedStep(Run(s, steps[..n]), steps[..n], steps[n]);
    }
  }

  lemma NothingLogged(s: State, capacity: nat)
    requires Init(s, capacity)
    ensures Logged(s, [])
  {
  }

  /** A record that the filter refused is never reserved, hence never captured. */
  lemma OnlyMatching(s: State, capacity: nat, steps: seq<Step>, i: nat)
    requires Init(s, capacity) && Legal(s, steps) && i < |Run(s, steps).log|
    ensures exists t :: Begin(t, Run(s, steps).log[i], true) in steps
  {
    LogIsReservations(s, capacity, steps);
    ReservedBegan(steps, i);
  }

  lemma {:induction false} ReservedBegan(steps: seq<Step>, i: nat)
    requires i < |Reservations(steps)| && Reservations(steps)[i].Some?
    ensures exists t :: Begin(t, Reservations(steps)[i].value, true) in steps
  {
    var n := |steps| - 1;
    if i < |Reservations(steps[..n])| { ReservedBegan(steps[..n], i); }
  }
}

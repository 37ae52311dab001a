/** The agent's exact-record store: producers publish records lock-free and help each
    other advance a committed prefix.

    Every atomic operation of `enqueue_record` is one step, and the steps of any number of
    producers interleave in any order.  Atomics are sequentially consistent and the model
    covers one armed capture, so nothing resets the store while producers run.
 */
module CaptureStore {
  import opened Common
  import opened Utf8

  /** The fields of a captured record that the decoder inspects, and the others together. */
  datatype Record = Record(timestampNs: nat, kind: nat, pid: nat, tid: nat,
                           gridX: nat, gridY: nat, gridZ: nat, blockX: nat, blockY: nat,
                           name: seq<Byte>, rest: seq<nat>)

  datatype CaptureState = Idle | Active | LimitReached | Stopped | Failed

  datatype StopReason = NoReason | Requested | RecordLimit | CuptiError | OutputError

  /** Where a producer is inside `enqueue_record`. */
  datatype Pc =
    | Reserving(record: Record)
    | Copying(record: Record, index: nat)
    | Publishing(record: Record, index: nat)
    | Loading
    | Checking(local: nat)
    | Swapping(local: nat)
    | StoringReason
    | StoringLimit

  /** `log` and `limitStored` are history: the records in reservation order, and whether
      some producer has stored the record-limit state. */
  datatype State = State(
    capacity: nat,
    recordCount: nat,
    committed: nat,
    records: seq<Record>,
    ready: seq<bool>,
    captureState: CaptureState,
    stopReason: StopReason,
    producers: map<nat, Pc>,
    log: seq<Record>,
    limitStored: bool)

  datatype Step =
    | Begin(thread: nat, record: Record, matches: bool)  // state load and filter
    | Reserve(thread: nat)                               // fetch-add on the record count
    | CopyPart(thread: nat, torn: Record)                // the copy is not atomic
    | CopyDone(thread: nat)
    | Publish(thread: nat)                               // the ready store
    | LoadCommitted(thread: nat)
    | CheckReady(thread: nat)                            // loop test
    | Swap(thread: nat, spurious: bool)                  // weak compare-exchange
    | StoreReason(thread: nat)
    | StoreLimit(thread: nat)
    | Mark(state: CaptureState, reason: StopReason)      // control thread or error path

  ghost predicate Init(s: State, capacity: nat) {
    && capacity > 0
    && s.capacity == capacity == |s.records| == |s.ready|
    && s.recordCount == s.committed == 0
    && (forall i :: 0 <= i < capacity ==> !s.ready[i])
    && s.captureState == Active && s.stopReason == NoReason
    && s.producers == map[] && s.log == [] && !s.limitStored
  }

  ghost predicate Enabled(s: State, step: Step) {
    match step
    case Begin(t, _, _) => t !in s.producers
    case Reserve(t) => t in s.producers && s.producers[t].Reserving?
    case CopyPart(t, _) => t in s.producers && s.producers[t].Copying?
                           && s.producers[t].index < |s.records|
    case CopyDone(t) => t in s.producers && s.producers[t].Copying?
                        && s.producers[t].index < |s.records|
    case Publish(t) => t in s.producers && s.producers[t].Publishing?
                       && s.producers[t].index < |s.ready|
    case LoadCommitted(t) => t in s.producers && s.producers[t].Loading?
    case CheckReady(t) => t in s.producers && s.producers[t].Checking?
                          && (s.producers[t].local < s.capacity ==> s.producers[t].local < |s.ready|)
    case Swap(t, _) => t in s.producers && s.producers[t].Swapping?
    case StoreReason(t) => t in s.producers && s.producers[t].StoringReason?
    case StoreLimit(t) => t in s.producers && s.producers[t].StoringLimit?
    case Mark(state, _) => state != Active
  }

  ghost function Exec(s: State, step: Step): (s': State)
    requires Enabled(s, step)
  {
    match step
    case Begin(t, r, matches) =>
      if s.captureState != Active || !matches then s
      else s.(producers := s.producers[t := Reserving(r)])
    case Reserve(t) =>
      var r := s.producers[t].record;
      var next := if s.recordCount >= s.capacity then StoringReason else Copying(r, s.recordCount);
      s.(recordCount := s.recordCount + 1, log := s.log + [r], producers := s.producers[t := next])
    case CopyPart(t, torn) =>
      s.(records := s.records[s.producers[t].index := torn])
    case CopyDone(t) =>
      var pc := s.producers[t];
      s.(records := s.records[pc.index := pc.record],
         producers := s.producers[t := Publishing(pc.record, pc.index)])
    case Publish(t) =>
      s.(ready := s.ready[s.producers[t].index := true], producers := s.producers[t := Loading])
    case LoadCommitted(t) =>
      s.(producers := s.producers[t := Checking(s.committed)])
    case CheckReady(t) =>
      var local := s.producers[t].local;
      if local < s.capacity && s.ready[local] then s.(producers := s.producers[t := Swapping(local)])
      else s.(producers := s.producers - {t})
    case Swap(t, spurious) =>
      var local := s.producers[t].local;
      if s.committed == local && !spurious then
        s.(committed := local + 1, producers := s.producers[t := Checking(local + 1)])
      else
        s.(producers := s.producers[t := Checking(s.committed)])
    case StoreReason(t) =>
      s.(stopReason := RecordLimit, producers := s.producers[t := StoringLimit])
    case StoreLimit(t) =>
      s.(captureState := LimitReached, limitStored := true, producers := s.producers - {t})
    case Mark(state, reason) =>
      s.(captureState := state, stopReason := reason)
  }

  ghost predicate Legal(s: State, steps: seq<Step>)
    decreases |steps|
  {
    steps == [] || (Enabled(s, steps[0]) && Legal(Exec(s, steps[0]), steps[1..]))
  }

  ghost function Run(s: State, steps: seq<Step>): (s': State)
    requires Legal(s, steps)
    decreases |steps|
  {
    if steps == [] then s else Run(Exec(s, steps[0]), steps[1..])
  }

  ghost predicate Quiescent(s: State) { s.producers == map[] }

  // The invariant of every reachable state

  ghost predicate Holds(s: State, t: nat, i: nat) {
    t in s.producers && (s.producers[t].Copying? || s.producers[t].Publishing?)
    && s.producers[t].index == i
  }

  ghost predicate Helping(s: State, t: nat) {
    t in s.producers && (s.producers[t].Loading? || s.producers[t].Checking? || s.producers[t].Swapping?)
  }

  ghost predicate Limiting(s: State, t: nat) {
    t in s.producers && (s.producers[t].StoringReason? || s.producers[t].StoringLimit?)
  }

  ghost predicate Shape(s: State) {
    && s.capacity > 0
    && |s.records| == |s.ready| == s.capacity
    && |s.log| == s.recordCount
    && s.committed <= s.recordCount && s.committed <= s.capacity
  }

  /** A ready slot holds its reservation's record, and everything committed is ready. */
  ghost predicate SlotsWritten(s: State)
    requires Shape(s)
  {
    && (forall i :: 0 <= i < s.committed ==> s.ready[i])
    && (forall i :: 0 <= i < s.capacity && s.ready[i] ==> i < s.recordCount && s.records[i] == s.log[i])
  }

  /** A producer between its reservation and its ready store is the only one on its slot. */
  ghost predicate SlotsOwned(s: State)
    requires Shape(s)
  {
    && (forall t: nat, i: nat :: Holds(s, t, i) ==>
          && i < s.capacity && i < s.recordCount && !s.ready[i]
          && s.producers[t].record == s.log[i]
          && (s.producers[t].Publishing? ==> s.records[i] == s.log[i]))
    && (forall t: nat, u: nat, i: nat :: Holds(s, t, i) && Holds(s, u, i) ==> t == u)
    && (forall i :: 0 <= i < s.capacity && i < s.recordCount && !s.ready[i] ==> exists t: nat :: Holds(s, t, i))
  }

  /** Loop-local copies of the committed count lag behind it, and a committed count that
      could advance has a helper on its way. */
  ghost predicate PrefixHelped(s: State)
    requires Shape(s)
  {
    && (forall t :: t in s.producers && s.producers[t].Checking? ==> s.producers[t].local <= s.committed)
    && (forall t :: t in s.producers && s.producers[t].Swapping? ==>
          && s.producers[t].local <= s.committed
          && s.producers[t].local < s.capacity
          && s.ready[s.producers[t].local])
    && (s.committed < s.capacity && s.ready[s.committed] ==> exists t: nat :: Helping(s, t))
  }

  ghost predicate LimitTold(s: State) {
    && (s.limitStored ==> s.recordCount > s.capacity)
    && (forall t: nat :: Limiting(s, t) ==> s.recordCount > s.capacity)
    && (s.recordCount > s.capacity ==> s.limitStored || exists t: nat :: Limiting(s, t))
  }

  ghost predicate Inv(s: State) {
    Shape(s) && SlotsWritten(s) && SlotsOwned(s) && PrefixHelped(s) && LimitTold(s)
  }

  lemma InitInv(s: State, capacity: nat)
    requires Init(s, capacity)
    ensures Inv(s)
  {
  }

  /** No producer ever addresses a slot outside the buffers. */
  lemma InBounds(s: State, t: nat)
    requires Inv(s) && t in s.producers
    ensures s.producers[t].Copying? || s.producers[t].Publishing? ==> s.producers[t].index < s.capacity
    ensures s.producers[t].Checking? || s.producers[t].Swapping? ==> s.producers[t].local <= s.capacity
  {
    if s.producers[t].Copying? || s.producers[t].Publishing? {
      assert Holds(s, t, s.producers[t].index);
    }
  }

  lemma StepInv(s: State, step: Step)
    requires Inv(s) && Enabled(s, step)
    ensures Inv(Exec(s, step))
  {
    var s' := Exec(s, step);
    match step
    case Begin(t, _, _) => BeginInv(s, step);
    case Reserve(t) => ReserveInv(s, t);
    case CopyPart(t, _) => CopyInv(s, step, t);
    case CopyDone(t) => CopyInv(s, step, t);
    case Publish(t) => PublishInv(s, t);
    case LoadCommitted(t) => LoadInv(s, t);
    case CheckReady(t) => CheckInv(s, t);
    case Swap(t, spurious) => SwapInv(s, t, spurious);
    case StoreReason(t) => LimitInv(s, step, t);
    case StoreLimit(t) => LimitInv(s, step, t);
    case Mark(_, _) =>
      assert forall t: nat, i: nat :: Holds(s', t, i) == Holds(s, t, i);
      assert forall t: nat :: Helping(s', t) == Helping(s, t) && Limiting(s', t) == Limiting(s, t);
  }

  lemma BeginInv(s: State, step: Step)
    requires Inv(s) && step.Begin? && Enabled(s, step)
    ensures Inv(Exec(s, step))
  {
    var s' := Exec(s, step);
    assert forall t: nat, i: nat :: Holds(s', t, i) == Holds(s, t, i);
    assert forall t: nat :: Helping(s', t) == Helping(s, t) && Limiting(s', t) == Limiting(s, t);
  }

  lemma ReserveInv(s: State, t: nat)
    requires Inv(s) && Enabled(s, Reserve(t))
    ensures Inv(Exec(s, Reserve(t)))
  {
    var s' := Exec(s, Reserve(t));
    assert forall u: nat :: Helping(s', u) == Helping(s, u);
    ReserveOwned(s, t);
    if s.recordCount >= s.capacity {
      assert Limiting(s', t);
    } else {
      assert forall u: nat :: Limiting(s', u) == Limiting(s, u);
    }
  }

  lemma ReserveOwned(s: State, t: nat)
    requires Inv(s) && Enabled(s, Reserve(t))
    ensures var s' := Exec(s, Reserve(t)); Shape(s') && SlotsOwned(s')
  {
    var s' := Exec(s, Reserve(t));
    assert forall u: nat, i: nat :: u != t ==> Holds(s', u, i) == Holds(s, u, i);
    if s.recordCount < s.capacity {
      assert Holds(s', t, s.recordCount);
      assert !s.ready[s.recordCount];
    }
    forall i | 0 <= i < s'.capacity && i < s'.recordCount && !s'.ready[i]
      ensures exists u: nat :: Holds(s', u, i)
    {
      if i < s.recordCount {
        var u: nat :| Holds(s, u, i);
        assert Holds(s', u, i);
      }
    }
  }

  lemma CopyInv(s: State, step: Step, t: nat)
    requires Inv(s) && Enabled(s, step) && (step.CopyPart? || step.CopyDone?) && step.thread == t
    ensures Inv(Exec(s, step))
  {
    var s' := Exec(s, step);
    assert Holds(s, t, s.producers[t].index);
    assert forall u: nat, i: nat :: Holds(s', u, i) == Holds(s, u, i);
    assert forall u: nat :: Helping(s', u) == Helping(s, u) && Limiting(s', u) == Limiting(s, u);
  }

  lemma PublishInv(s: State, t: nat)
    requires Inv(s) && Enabled(s, Publish(t))
    ensures Inv(Exec(s, Publish(t)))
  {
    var s' := Exec(s, Publish(t));
    assert Holds(s, t, s.producers[t].index);
    assert forall u: nat, i: nat :: Holds(s', u, i) == (u != t && Holds(s, u, i));
    assert forall u: nat :: Limiting(s', u) == Limiting(s, u);
    assert Helping(s', t);
    forall i | 0 <= i < s'.capacity && i < s'.recordCount && !s'.ready[i]
      ensures exists u: nat :: Holds(s', u, i)
    {
      var u: nat :| Holds(s, u, i);
      assert Holds(s', u, i);
    }
  }

  /** Moving one helping producer leaves the claims about owners and the limit alone. */
  lemma HelperMoves(s: State, s': State, t: nat)
    requires Inv(s) && Helping(s, t) && Shape(s')
    requires s' == s.(committed := s'.committed, producers := s'.producers)
    requires s'.producers == s.producers - {t}
             || (Helping(s', t) && s'.producers == s.producers[t := s'.producers[t]])
    ensures SlotsOwned(s') && LimitTold(s')
  {
    assert forall u: nat, i: nat :: Holds(s', u, i) == Holds(s, u, i);
    assert forall u: nat :: Limiting(s', u) == Limiting(s, u);
    forall i | 0 <= i < s'.capacity && i < s'.recordCount && !s'.ready[i]
      ensures exists u: nat :: Holds(s', u, i)
    {
      var u: nat :| Holds(s, u, i);
      assert Holds(s', u, i);
    }
  }

  lemma LoadInv(s: State, t: nat)
    requires Inv(s) && Enabled(s, LoadCommitted(t))
    ensures Inv(Exec(s, LoadCommitted(t)))
  {
    var s' := Exec(s, LoadCommitted(t));
    assert Helping(s', t);
    HelperMoves(s, s', t);
  }

  lemma CheckInv(s: State, t: nat)
    requires Inv(s) && Enabled(s, CheckReady(t))
    ensures Inv(Exec(s, CheckReady(t)))
  {
    var s' := Exec(s, CheckReady(t));
    if t in s'.producers {
      assert Helping(s', t);
    } else {
      // A producer leaves only after seeing the slot at the committed count not ready.
      assert s.producers[t].local == s.capacity || !s.ready[s.producers[t].local];
      assert s'.committed == s'.capacity || !s'.ready[s'.committed];
    }
    HelperMoves(s, s', t);
  }

  lemma SwapInv(s: State, t: nat, spurious: bool)
    requires Inv(s) && Enabled(s, Swap(t, spurious))
    ensures Inv(Exec(s, Swap(t, spurious)))
  {
    var s' := Exec(s, Swap(t, spurious));
    assert Helping(s', t);
    HelperMoves(s, s', t);
  }

  lemma LimitInv(s: State, step: Step, t: nat)
    requires Inv(s) && Enabled(s, step) && (step.StoreReason? || step.StoreLimit?) && step.thread == t
    ensures Inv(Exec(s, step))
  {
    var s' := Exec(s, step);
    assert Limiting(s, t);
    assert forall u: nat, i: nat :: Holds(s', u, i) == Holds(s, u, i);
    assert forall u: nat :: Helping(s', u) == Helping(s, u);
    assert forall u: nat :: u != t ==> Limiting(s', u) == Limiting(s, u);
    assert step.StoreReason? ==> Limiting(s', t);
  }

  lemma {:induction false} RunInv(s: State, steps: seq<Step>)
    requires Inv(s) && Legal(s, steps)
    ensures Inv(Run(s, steps))
    decreases |steps|
  {
    if steps != [] {
      StepInv(s, steps[0]);
      RunInv(Exec(s, steps[0]), steps[1..]);
    }
  }

  // What producers may change

  /** Later states only extend what was reserved and committed before. */
  ghost predicate Extends(s: State, s': State)
    requires Shape(s) && Shape(s')
  {
    && s'.capacity == s.capacity
    && s.recordCount <= s'.recordCount && s.log <= s'.log
    && s.committed <= s'.committed
    && s.records[..s.committed] == s'.records[..s.committed]
    && (s.limitStored ==> s'.limitStored)
  }

  /** A slot is written only by the one producer that reserved it, before it is ready. */
  lemma StepWrites(s: State, step: Step, i: nat)
    requires Inv(s) && Enabled(s, step) && i < s.capacity
    requires i < |Exec(s, step).records| && Exec(s, step).records[i] != s.records[i]
    ensures !s.ready[i] && s.committed <= i
    ensures (step.CopyPart? || step.CopyDone?) && Holds(s, step.thread, i)
    ensures forall u: nat :: Holds(s, u, i) ==> u == step.thread
  {
    assert Holds(s, step.thread, s.producers[step.thread].index);
  }

  lemma StepExtends(s: State, step: Step)
    requires Inv(s) && Enabled(s, step)
    ensures Inv(Exec(s, step)) && Extends(s, Exec(s, step))
  {
    StepInv(s, step);
    var s' := Exec(s, step);
    forall i | 0 <= i < s.committed ensures s.records[i] == s'.records[i] {
      if s'.records[i] != s.records[i] { StepWrites(s, step, i); }
    }
  }

  /** Over any run the committed count never decreases, never passes the reservations or the
      capacity, and the records below it are the reserved ones and never change. */
  lemma {:induction false} RunExtends(s: State, steps: seq<Step>)
    requires Inv(s) && Legal(s, steps)
    ensures var s' := Run(s, steps);
            && Inv(s') && Extends(s, s')
            && s'.committed <= Min(s'.recordCount, s'.capacity)
            && s'.records[..s'.committed] == s'.log[..s'.committed]
    decreases |steps|
  {
    if steps != [] {
      StepExtends(s, steps[0]);
      RunExtends(Exec(s, steps[0]), steps[1..]);
      var s1, s' := Exec(s, steps[0]), Run(s, steps);
      assert s'.records[..s.committed] == s'.records[..s1.committed][..s.committed];
    }
  }

  lemma QuiescentCommitted(s: State)
    requires Inv(s) && Quiescent(s)
    ensures s.committed == Min(s.recordCount, s.capacity)
    ensures s.limitStored <==> s.recordCount > s.capacity
  {
    assert forall t: nat :: !Helping(s, t) && !Limiting(s, t);
    assert forall t: nat, i: nat :: !Holds(s, t, i);
  }

  /** When no producer is in flight, every reserved record that fits is committed, and the
      record limit was stored exactly when something did not fit. */
  lemma QuiescentComplete(s: State, capacity: nat, steps: seq<Step>)
    requires Init(s, capacity) && Legal(s, steps) && Quiescent(Run(s, steps))
    ensures var s' := Run(s, steps);
            && s'.committed == Min(s'.recordCount, capacity) && |s'.log| == s'.recordCount
            && |s'.records| == capacity
            && s'.records[..s'.committed] == s'.log[..s'.committed]
            && (s'.limitStored <==> s'.recordCount > capacity)
  {
    InitInv(s, capacity);
    RunExtends(s, steps);
    QuiescentCommitted(Run(s, steps));
  }

  // The helping loop is bounded

  /** An upper bound on the steps a producer still takes inside its call. */
  ghost function Rank(s: State, t: nat): (r: nat) {
    if t !in s.producers then 0 else
    match s.producers[t]
    case Reserving(_) => 2 * s.capacity + 6
    case Copying(_, _) => 2 * s.capacity + 5
    case Publishing(_, _) => 2 * s.capacity + 4
    case Loading => 2 * s.capacity + 3
    case Checking(local) => if local <= s.capacity then 2 * (s.capacity - local) + 2 else 0
    case Swapping(local) => if local <= s.capacity then 2 * (s.capacity - local) + 1 else 0
    case StoringReason => 2
    case StoringLimit => 1
  }

  ghost predicate OfThread(step: Step, t: nat) { !step.Mark? && step.thread == t }

  /** A weak compare-exchange that fails although it found the expected value. */
  ghost predicate SpuriousFailure(s: State, step: Step) {
    step.Swap? && step.spurious && step.thread in s.producers && s.producers[step.thread].Swapping?
    && s.producers[step.thread].local == s.committed
  }

  /** What is counted of the steps of a call: all of them, its spurious failures, or the partial copies. */
  datatype Measure = Own | Spurious | Partial

  ghost function Weight(m: Measure, s: State, step: Step, t: nat): (n: nat) {
    match m
    case Own => if OfThread(step, t) then 1 else 0
    case Spurious => if OfThread(step, t) && SpuriousFailure(s, step) then 1 else 0
    case Partial => if OfThread(step, t) && step.CopyPart? then 1 else 0
  }

  /** How far a step brings a call: a spurious failure undoes the loop test before it, and a partial copy
      leaves the call where it is. */
  ghost function Gain(s: State, step: Step, t: nat): int {
    Weight(Own, s, step, t) - 2 * Weight(Spurious, s, step, t) - Weight(Partial, s, step, t)
  }

  lemma OwnStepRank(s: State, step: Step, t: nat)
    requires Enabled(s, step) && t in s.producers && OfThread(step, t)
    requires s.producers[t].Checking? || s.producers[t].Swapping? ==> s.producers[t].local <= s.committed
    requires s.committed <= s.capacity
    ensures Rank(Exec(s, step), t) + Gain(s, step, t) <= Rank(s, t)
  {
  }

  lemma OtherStepRank(s: State, step: Step, t: nat)
    requires Enabled(s, step) && t in s.producers && !OfThread(step, t)
    ensures Rank(Exec(s, step), t) == Rank(s, t) && Gain(s, step, t) == 0
  {
    assert t in Exec(s, step).producers && Exec(s, step).producers[t] == s.producers[t];
  }

  lemma StepRank(s: State, step: Step, t: nat)
    requires Shape(s) && PrefixHelped(s) && Enabled(s, step) && t in s.producers
    ensures Rank(Exec(s, step), t) + Gain(s, step, t) <= Rank(s, t)
  {
    hide Rank, Gain, Exec, Enabled;
    if OfThread(step, t) {
      OwnStepRank(s, step, t);
    } else {
      OtherStepRank(s, step, t);
    }
  }

  /** The steps of a call of `t` in progress, up to its return. */
  ghost function Counted(m: Measure, s: State, steps: seq<Step>, t: nat): (n: nat)
    requires Legal(s, steps)
    decreases |steps|
  {
    if steps == [] || t !in s.producers then 0
    else Weight(m, s, steps[0], t) + Counted(m, Exec(s, steps[0]), steps[1..], t)
  }

  lemma {:induction false} CallRanked(s: State, steps: seq<Step>, t: nat)
    requires Inv(s) && Legal(s, steps)
    ensures Counted(Own, s, steps, t)
            <= Rank(s, t) + 2 * Counted(Spurious, s, steps, t) + Counted(Partial, s, steps, t)
    decreases |steps|
  {
    if steps != [] && t in s.producers {
      StepInv(s, steps[0]);
      StepRank(s, steps[0], t);
      hide Rank, Inv, Exec, Enabled, SpuriousFailure;
      CallRanked(Exec(s, steps[0]), steps[1..], t);
    }
  }

  /** However the others interleave, a call makes at most 2 * capacity + 6 steps, two more for each spurious
      failure of its compare-exchange, and its partial copies; with a strong compare-exchange it is wait-free. */
  lemma CallBounded(s: State, steps: seq<Step>, t: nat)
    requires Inv(s) && Legal(s, steps)
    ensures Counted(Own, s, steps, t)
            <= 2 * s.capacity + 6 + 2 * Counted(Spurious, s, steps, t) + Counted(Partial, s, steps, t)
  {
    CallRanked(s, steps, t);
  }
}

/** The agent's lock-free aggregate table.  Racing calls of `aggregate_activity` probe an
    open-addressed table, claim empty slots by compare-exchange and then update the counters
    of their slot with atomic operations; two racing calls may insert the same key twice.

    Every atomic operation is one step and the steps of all calls interleave freely, under
    sequential consistency and within one armed capture.
 */
module AggregateTable {
  import opened Common
  import opened Utf8
  import opened LinearProbing

  datatype CaptureState = Active | LimitReached | Stopped | Failed

  /** A key as a slot stores it: the name is cut to the buffer. */
  datatype Key = Key(kind: nat, device: nat, memcpyKind: nat, name: seq<Byte>)

  datatype Call = Call(kind: nat, device: nat, memcpyKind: nat, name: seq<Byte>,
                       startNs: nat, endNs: nat, bytes: nat)

  function KeyOf(c: Call): Key { Key(c.kind, c.device, c.memcpyKind, CutName(c.name)) }

  /** Two calls share a slot's key if and only if they agree in kind, device, direction and stored name. */
  lemma SameKey(a: Call, b: Call)
    ensures KeyOf(a) == KeyOf(b)
            <==> a.kind == b.kind && a.device == b.device && a.memcpyKind == b.memcpyKind
                 && CutName(a.name) == CutName(b.name)
  {
  }

  predicate Timed(c: Call) { 0 < c.startNs <= c.endNs }

  function Duration(c: Call): (d: nat)
    requires Timed(c)
  {
    c.endNs - c.startNs
  }

  /** `state` is 0 for an empty slot, 1 while its key is written, and the key's hash once
      the slot is published. */
  datatype Slot = Slot(state: nat, key: Key, count: nat, duration: nat, least: nat, greatest: nat, bytes: nat)

  datatype Phase =
    | Probing(probe: nat)
    | Claiming(probe: nat)
    | Filling(slot: nat)
    | Publishing(slot: nat)
    | Counting(slot: nat)
    | AddingDuration(slot: nat)
    | AddingBytes(slot: nat)
    | AddingCount(slot: nat)
    | LoadingMin(slot: nat)
    | SwappingMin(slot: nat, current: nat)
    | LoadingMax(slot: nat)
    | SwappingMax(slot: nat, current: nat)
    | Done(slot: nat)
    | Dropping
    | Limiting
    | Dropped
    | Overflowed

  datatype CallState = CallState(call: Call, phase: Phase)

  /** `calls` holds every accepted call, finished ones included. */
  datatype Table = Table(
    slots: seq<Slot>,
    committed: nat,
    dropped: nat,
    captureState: CaptureState,
    outputError: bool,
    calls: seq<CallState>)

  datatype Step =
    | Begin(call: Call)
    | Advance(i: nat, spurious: bool)
    | Mark(state: CaptureState)

  ghost predicate HashOk(hash: Key -> nat) { forall k :: hash(k) >= 2 }

  ghost predicate Init(t: Table, capacity: nat) {
    && capacity > 0 && |t.slots| == capacity
    && (forall i :: 0 <= i < capacity ==> t.slots[i].state == 0)
    && t.committed == t.dropped == 0 && t.captureState == Active && !t.outputError && t.calls == []
  }

  ghost predicate Enabled(t: Table, step: Step) {
    match step
    case Begin(c) => c.endNs < U64 && c.bytes < U64
    case Advance(i, _) =>
      && i < |t.calls| && !t.calls[i].phase.Done? && !t.calls[i].phase.Dropped? && !t.calls[i].phase.Overflowed?
      && |t.slots| > 0 && Timed(t.calls[i].call)
      && (SlotOf(t.calls[i].phase).Some? ==> SlotOf(t.calls[i].phase).value < |t.slots|)
    case Mark(state) => state != Active
  }

  function SlotOf(p: Phase): (slot: Option<nat>) {
    match p
    case Probing(_) => None
    case Claiming(_) => None
    case Dropping => None
    case Limiting => None
    case Dropped => None
    case Overflowed => None
    case _ => Some(p.slot)
  }

  /** How far a call has updated its published slot; 0 before it is attached to one. */
  function Stage(p: Phase): nat {
    match p
    case Counting(_) => 1
    case AddingDuration(_) => 2
    case AddingBytes(_) => 3
    case AddingCount(_) => 4
    case LoadingMin(_) => 5
    case SwappingMin(_, _) => 5
    case LoadingMax(_) => 6
    case SwappingMax(_, _) => 6
    case Done(_) => 7
    case _ => 0
  }

  function NextProbe(p: nat, capacity: nat): Phase {
    if p + 1 < capacity then Probing(p + 1) else Dropping
  }

  ghost function To(t: Table, i: nat, phase: Phase): Table
    requires i < |t.calls|
  {
    t.(calls := t.calls[i := t.calls[i].(phase := phase)])
  }

  /** A call found a counter about to wrap: it stores the output error and stops. */
  ghost function Fail(t: Table, i: nat): Table
    requires i < |t.calls|
  {
    To(t, i, Overflowed).(outputError := true, captureState := Failed)
  }

  ghost function WithSlot(t: Table, j: nat, slot: Slot): Table
    requires j < |t.slots|
  {
    t.(slots := t.slots[j := slot])
  }

  ghost function Exec(hash: Key -> nat, t: Table, step: Step): (t': Table)
    requires Enabled(t, step)
  {
    match step
    case Begin(c) =>
      if t.captureState != Active then t
      else if !Timed(c) then t.(outputError := true, captureState := Failed)
      else t.(calls := t.calls + [CallState(c, Probing(0))])
    case Mark(state) => t.(captureState := state)
    case Advance(i, spurious) =>
      var c := t.calls[i].call;
      var key, d, capacity := KeyOf(c), Duration(c), |t.slots|;
      match t.calls[i].phase
      case Probing(p) =>
        var j := SlotIndex(hash(key), p, capacity);
        if t.slots[j].state == hash(key) && t.slots[j].key == key then To(t, i, AddingDuration(j))
        else if t.slots[j].state == 0 then To(t, i, Claiming(p))
        else To(t, i, NextProbe(p, capacity))
      case Claiming(p) =>
        var j := SlotIndex(hash(key), p, capacity);
        if t.slots[j].state == 0 then To(WithSlot(t, j, t.slots[j].(state := 1)), i, Filling(j))
        else To(t, i, NextProbe(p, capacity))
      case Filling(j) => To(WithSlot(t, j, Slot(1, key, 0, 0, U64 - 1, 0, 0)), i, Publishing(j))
      case Publishing(j) => To(WithSlot(t, j, t.slots[j].(state := hash(key))), i, Counting(j))
      case Counting(j) => To(t, i, AddingDuration(j)).(committed := t.committed + 1)
      case AddingDuration(j) =>
        var total := t.slots[j].duration + d;
        var t' := WithSlot(t, j, t.slots[j].(duration := total % U64));
        if total >= U64 then Fail(t', i)
        else To(t', i, if c.bytes != 0 then AddingBytes(j) else AddingCount(j))
      case AddingBytes(j) =>
        var total := t.slots[j].bytes + c.bytes;
        var t' := WithSlot(t, j, t.slots[j].(bytes := total % U64));
        if total >= U64 then Fail(t', i) else To(t', i, AddingCount(j))
      case AddingCount(j) =>
        var total := t.slots[j].count + 1;
        var t' := WithSlot(t, j, t.slots[j].(count := total % U64));
        if total >= U64 then Fail(t', i) else To(t', i, LoadingMin(j))
      case LoadingMin(j) =>
        To(t, i, if d < t.slots[j].least then SwappingMin(j, t.slots[j].least) else LoadingMax(j))
      case SwappingMin(j, current) =>
        if t.slots[j].least == current && !spurious
        then To(WithSlot(t, j, t.slots[j].(least := d)), i, LoadingMax(j))
        else To(t, i, if d < t.slots[j].least then SwappingMin(j, t.slots[j].least) else LoadingMax(j))
      case LoadingMax(j) =>
        To(t, i, if d > t.slots[j].greatest then SwappingMax(j, t.slots[j].greatest) else Done(j))
      case SwappingMax(j, current) =>
        if t.slots[j].greatest == current && !spurious
        then To(WithSlot(t, j, t.slots[j].(greatest := d)), i, Done(j))
        else To(t, i, if d > t.slots[j].greatest then SwappingMax(j, t.slots[j].greatest) else Done(j))
      case Dropping => To(t, i, Limiting).(dropped := t.dropped + 1)
      case Limiting => To(t, i, Dropped).(captureState := LimitReached)
  }

  ghost predicate Legal(hash: Key -> nat, t: Table, steps: seq<Step>)
    decreases |steps|
  {
    steps == [] || (Enabled(t, steps[0]) && Legal(hash, Exec(hash, t, steps[0]), steps[1..]))
  }

  ghost function Run(hash: Key -> nat, t: Table, steps: seq<Step>): (t': Table)
    requires Legal(hash, t, steps)
    decreases |steps|
  {
    if steps == [] then t else Run(hash, Exec(hash, t, steps[0]), steps[1..])
  }

  ghost predicate Quiescent(t: Table) {
    forall i :: 0 <= i < |t.calls| ==> t.calls[i].phase.Done? || t.calls[i].phase.Dropped? || t.calls[i].phase.Overflowed?
  }

  // Sums over calls

  /** What a call contributes so far: to a counter of one slot, to the slots published but
      not yet counted, or to the drops. */
  datatype Measure = Durations(slot: nat) | Bytes(slot: nat) | Counts(slot: nat) | Uncounted | Drops

  ghost function Weight(m: Measure, cs: CallState): (w: nat) {
    match m
    case Durations(j) => if SlotOf(cs.phase) == Some(j) && Stage(cs.phase) >= 3 && Timed(cs.call) then Duration(cs.call) else 0
    case Bytes(j) => if SlotOf(cs.phase) == Some(j) && Stage(cs.phase) >= 4 then cs.call.bytes else 0
    case Counts(j) => if SlotOf(cs.phase) == Some(j) && Stage(cs.phase) >= 5 then 1 else 0
    case Uncounted => if cs.phase.Counting? then 1 else 0
    case Drops => if cs.phase.Limiting? || cs.phase.Dropped? then 1 else 0
  }

  ghost function Sum(m: Measure, calls: seq<CallState>): (total: nat) {
    if calls == [] then 0 else Weight(m, calls[0]) + Sum(m, calls[1..])
  }

  lemma {:induction false} SumUpdate(m: Measure, calls: seq<CallState>, i: nat, cs: CallState)
    requires i < |calls|
    ensures Sum(m, calls[i := cs]) + Weight(m, calls[i]) == Sum(m, calls) + Weight(m, cs)
  {
    hide Weight;
    if i == 0 {
      assert calls[i := cs][1..] == calls[1..];
    } else {
      assert calls[i := cs][1..] == calls[1..][i - 1 := cs];
      SumUpdate(m, calls[1..], i - 1, cs);
    }
  }

  lemma {:induction false} SumAppend(m: Measure, calls: seq<CallState>, cs: CallState)
    ensures Sum(m, calls + [cs]) == Sum(m, calls) + Weight(m, cs)
  {
    hide Weight;
    if calls == [] {
      assert calls + [cs] == [cs] && [cs][1..] == [];
    } else {
      assert (calls + [cs])[1..] == calls[1..] + [cs];
      SumAppend(m, calls[1..], cs);
    }
  }

  lemma {:induction false} SumZero(m: Measure, calls: seq<CallState>)
    requires forall i :: 0 <= i < |calls| ==> Weight(m, calls[i]) == 0
    ensures Sum(m, calls) == 0
  {
    hide Weight;
    if calls != [] { SumZero(m, calls[1..]); }
  }

  ghost function Published(slots: seq<Slot>): (n: nat) {
    if slots == [] then 0 else (if slots[0].state >= 2 then 1 else 0) + Published(slots[1..])
  }

  lemma {:induction false} PublishedUpdate(slots: seq<Slot>, j: nat, slot: Slot)
    requires j < |slots|
    ensures Published(slots[j := slot]) + (if slots[j].state >= 2 then 1 else 0)
            == Published(slots) + (if slot.state >= 2 then 1 else 0)
  {
    if j == 0 {
      assert slots[j := slot][1..] == slots[1..];
    } else {
      assert slots[j := slot][1..] == slots[1..][j - 1 := slot];
      PublishedUpdate(slots[1..], j - 1, slot);
    }
  }

  // The invariant

  ghost predicate Attached(cs: CallState, j: nat, stage: nat) {
    SlotOf(cs.phase) == Some(j) && 1 <= stage <= Stage(cs.phase) && Timed(cs.call)
  }

  ghost predicate Owns(cs: CallState, j: nat) { cs.phase == Filling(j) || cs.phase == Publishing(j) }

  ghost predicate SumsOk(s: Slot, j: nat, calls: seq<CallState>) {
    && s.duration == Sum(Durations(j), calls)
    && s.bytes == Sum(Bytes(j), calls)
    && s.count == Sum(Counts(j), calls)
  }

  ghost predicate LeastOk(s: Slot, j: nat, calls: seq<CallState>) {
    && (forall i :: 0 <= i < |calls| && Attached(calls[i], j, 6) ==> s.least <= Duration(calls[i].call))
    && (s.least == U64 - 1
        || exists i :: 0 <= i < |calls| && Attached(calls[i], j, 5) && Duration(calls[i].call) == s.least)
  }

  ghost predicate GreatestOk(s: Slot, j: nat, calls: seq<CallState>) {
    && (forall i :: 0 <= i < |calls| && Attached(calls[i], j, 7) ==> Duration(calls[i].call) <= s.greatest)
    && (s.greatest == 0
        || exists i :: 0 <= i < |calls| && Attached(calls[i], j, 6) && Duration(calls[i].call) == s.greatest)
  }

  ghost predicate Used(j: nat, calls: seq<CallState>) {
    exists i :: 0 <= i < |calls| && Attached(calls[i], j, 1)
  }

  predicate Fits64(s: Slot) { s.duration < U64 && s.bytes < U64 && s.count < U64 }

  /** The counters of a published slot are the sums over the calls attached to it, its least
      and greatest durations bound the finished calls and are durations of attached ones. */
  ghost predicate SlotOk(hash: Key -> nat, s: Slot, j: nat, calls: seq<CallState>) {
    s.state >= 2 ==>
      && s.state == hash(s.key) && Fits64(s)
      && SumsOk(s, j, calls) && Used(j, calls) && LeastOk(s, j, calls) && GreatestOk(s, j, calls)
  }

  ghost predicate Tried(hash: Key -> nat, slots: seq<Slot>, key: Key, p: nat) {
    |slots| > 0 && forall q: nat :: q < p ==> slots[SlotIndex(hash(key), q, |slots|)].state != 0
  }

  ghost predicate CallOk(hash: Key -> nat, slots: seq<Slot>, cs: CallState) {
    && Timed(cs.call) && cs.call.endNs < U64 && cs.call.bytes < U64
    && (SlotOf(cs.phase).Some? ==> SlotOf(cs.phase).value < |slots|)
    && (Stage(cs.phase) >= 1 ==>
          slots[cs.phase.slot].state >= 2 && slots[cs.phase.slot].key == KeyOf(cs.call))
    && match cs.phase
       case Probing(p) => p < |slots| && Tried(hash, slots, KeyOf(cs.call), p)
       case Claiming(p) => p < |slots| && Tried(hash, slots, KeyOf(cs.call), p)
       case Filling(j) => slots[j].state == 1
       case Publishing(j) => slots[j] == Slot(1, KeyOf(cs.call), 0, 0, U64 - 1, 0, 0)
       case SwappingMin(_, current) => Duration(cs.call) < current
       case SwappingMax(_, current) => Duration(cs.call) > current
       case Dropping => forall j :: 0 <= j < |slots| ==> slots[j].state != 0
       case Limiting => forall j :: 0 <= j < |slots| ==> slots[j].state != 0
       case Dropped => forall j :: 0 <= j < |slots| ==> slots[j].state != 0
       case Overflowed => false
       case _ => true
  }

  ghost predicate OwnersApart(calls: seq<CallState>) {
    forall i, k, j: nat :: 0 <= i < k < |calls| && Owns(calls[i], j) ==> !Owns(calls[k], j)
  }

  ghost predicate CountsOk(t: Table) {
    && t.committed + Sum(Uncounted, t.calls) == Published(t.slots)
    && t.dropped == Sum(Drops, t.calls)
  }

  ghost predicate Good(hash: Key -> nat, t: Table) {
    && |t.slots| > 0
    && (forall j: nat :: j < |t.slots| ==> SlotOk(hash, t.slots[j], j, t.calls))
    && (forall i :: 0 <= i < |t.calls| ==> CallOk(hash, t.slots, t.calls[i]))
    && OwnersApart(t.calls)
    && CountsOk(t)
  }

  /** No call has found a counter about to wrap. */
  ghost predicate NoOverflow(t: Table) {
    forall i :: 0 <= i < |t.calls| ==> !t.calls[i].phase.Overflowed?
  }

  ghost predicate Inv(hash: Key -> nat, t: Table) { NoOverflow(t) ==> Good(hash, t) }

  /** A phase change of one call that keeps it on its slot. */
  ghost predicate Forward(cs: CallState, cs': CallState) {
    && cs'.call == cs.call && cs'.phase != Overflowed
    && (Stage(cs.phase) >= 1 ==> SlotOf(cs'.phase) == SlotOf(cs.phase) && Stage(cs.phase) <= Stage(cs'.phase))
  }

  /** A slot changes by what a call newly contributes to it. */
  ghost predicate Follows(cs: CallState, cs': CallState, j: nat, s: Slot, s': Slot) {
    && s'.state == s.state && s'.key == s.key && Timed(cs'.call) && (Fits64(s) ==> Fits64(s'))
    && s'.duration + Weight(Durations(j), cs) == s.duration + Weight(Durations(j), cs')
    && s'.bytes + Weight(Bytes(j), cs) == s.bytes + Weight(Bytes(j), cs')
    && s'.count + Weight(Counts(j), cs) == s.count + Weight(Counts(j), cs')
    && (s'.least == s.least || (Attached(cs', j, 5) && s'.least == Duration(cs'.call) < s.least))
    && (Attached(cs', j, 6) ==> s'.least <= Duration(cs'.call))
    && (s'.greatest == s.greatest || (Attached(cs', j, 6) && s'.greatest == Duration(cs'.call) > s.greatest))
    && (Attached(cs', j, 7) ==> Duration(cs'.call) <= s'.greatest)
  }

  lemma SlotFollows(hash: Key -> nat, calls: seq<CallState>, i: nat, cs': CallState, j: nat, s: Slot, s': Slot)
    requires i < |calls| && Forward(calls[i], cs') && s.state >= 2 && SlotOk(hash, s, j, calls)
    requires Follows(calls[i], cs', j, s, s')
    ensures SlotOk(hash, s', j, calls[i := cs'])
  {
    SumUpdate(Durations(j), calls, i, cs');
    SumUpdate(Bytes(j), calls, i, cs');
    SumUpdate(Counts(j), calls, i, cs');
    hide Weight, Sum, Stage, SlotOf;
    StaysAttached(calls, i, cs', j);
    LeastFollows(calls, i, cs', j, s, s');
    GreatestFollows(calls, i, cs', j, s, s');
  }

  lemma StaysAttached(calls: seq<CallState>, i: nat, cs': CallState, j: nat)
    requires i < |calls| && Forward(calls[i], cs')
    ensures forall k, n: nat :: 0 <= k < |calls| && Attached(calls[k], j, n) ==> Attached(calls[i := cs'][k], j, n)
    ensures Used(j, calls) ==> Used(j, calls[i := cs'])
  {
    if Used(j, calls) {
      var w :| 0 <= w < |calls| && Attached(calls[w], j, 1);
      assert Attached(calls[i := cs'][w], j, 1);
    }
  }

  lemma LeastFollows(calls: seq<CallState>, i: nat, cs': CallState, j: nat, s: Slot, s': Slot)
    requires i < |calls| && Forward(calls[i], cs') && LeastOk(s, j, calls)
    requires s'.least == s.least || (Attached(cs', j, 5) && s'.least == Duration(cs'.call) < s.least)
    requires Attached(cs', j, 6) ==> s'.least <= Duration(cs'.call)
    ensures LeastOk(s', j, calls[i := cs'])
  {
    hide Stage, SlotOf;
    var calls' := calls[i := cs'];
    StaysAttached(calls, i, cs', j);
    if s'.least != s.least {
      assert Attached(calls'[i], j, 5);
    } else if s.least != U64 - 1 {
      var k :| 0 <= k < |calls| && Attached(calls[k], j, 5) && Duration(calls[k].call) == s.least;
      assert Attached(calls'[k], j, 5);
    }
  }

  lemma GreatestFollows(calls: seq<CallState>, i: nat, cs': CallState, j: nat, s: Slot, s': Slot)
    requires i < |calls| && Forward(calls[i], cs') && GreatestOk(s, j, calls)
    requires s'.greatest == s.greatest || (Attached(cs', j, 6) && s'.greatest == Duration(cs'.call) > s.greatest)
    requires Attached(cs', j, 7) ==> Duration(cs'.call) <= s'.greatest
    ensures GreatestOk(s', j, calls[i := cs'])
  {
    hide Stage, SlotOf;
    var calls' := calls[i := cs'];
    StaysAttached(calls, i, cs', j);
    if s'.greatest != s.greatest {
      assert Attached(calls'[i], j, 6);
    } else if s.greatest != 0 {
      var k :| 0 <= k < |calls| && Attached(calls[k], j, 6) && Duration(calls[k].call) == s.greatest;
      assert Attached(calls'[k], j, 6);
    }
  }

  /** A slot only moves from empty to claimed to published, and keeps its key then. */
  ghost predicate Grows(s: Slot, s': Slot) {
    (s.state != 0 ==> s'.state != 0) && (s.state >= 2 ==> s'.state >= 2 && s'.key == s.key)
  }

  /** Calls do not notice the steps of others. */
  lemma CallUnmoved(hash: Key -> nat, slots: seq<Slot>, j: nat, s': Slot, cs: CallState)
    requires j < |slots| && Grows(slots[j], s') && CallOk(hash, slots, cs)
    requires Owns(cs, j) ==> s' == slots[j]
    ensures CallOk(hash, slots[j := s'], cs)
  {
  }

  /** A step of call `i` on slot `j` keeps the invariant if it keeps it for both. */
  lemma LocalStep(hash: Key -> nat, t: Table, t': Table, i: nat, j: nat, cs': CallState, s': Slot)
    requires Good(hash, t) && i < |t.calls| && j < |t.slots|
    requires t'.slots == t.slots[j := s'] && t'.calls == t.calls[i := cs']
    requires Forward(t.calls[i], cs') && Grows(t.slots[j], s')
    requires s' != t.slots[j] ==> t.slots[j].state != 1 || Owns(t.calls[i], j)
    requires SlotOf(t.calls[i].phase).Some? ==> SlotOf(t.calls[i].phase) == Some(j)
    requires SlotOf(cs'.phase).Some? ==> SlotOf(cs'.phase) == Some(j)
    requires Owns(cs', j) ==> Owns(t.calls[i], j) || t.slots[j].state == 0
    requires CallOk(hash, t'.slots, cs') && SlotOk(hash, s', j, t'.calls) && CountsOk(t')
    ensures Good(hash, t')
  {
    hide CountsOk;
    forall k: nat | k < |t'.slots| ensures SlotOk(hash, t'.slots[k], k, t'.calls) {
      if k != j { OtherSlot(hash, t, i, k, cs'); }
    }
    hide SlotOk, CallOk;
    forall k | 0 <= k < |t'.calls| ensures CallOk(hash, t'.slots, t'.calls[k]) {
      if k != i { OtherCall(hash, t, i, j, s', k); }
    }
    forall a, b, x: nat | 0 <= a < b < |t'.calls| && Owns(t'.calls[a], x) ensures !Owns(t'.calls[b], x) {
      OwnersStayApart(hash, t, i, j, cs', a, b, x);
    }
  }

  lemma WeightsElsewhere(cs: CallState, cs': CallState, k: nat)
    requires SlotOf(cs.phase) != Some(k) && SlotOf(cs'.phase) != Some(k)
    ensures Weight(Durations(k), cs) == Weight(Durations(k), cs') == 0
    ensures Weight(Bytes(k), cs) == Weight(Bytes(k), cs') == 0
    ensures Weight(Counts(k), cs) == Weight(Counts(k), cs') == 0
  {
  }

  lemma OtherSlot(hash: Key -> nat, t: Table, i: nat, k: nat, cs': CallState)
    requires Good(hash, t) && i < |t.calls| && k < |t.slots| && Forward(t.calls[i], cs') && Timed(cs'.call)
    requires SlotOf(t.calls[i].phase) != Some(k) && SlotOf(cs'.phase) != Some(k)
    ensures SlotOk(hash, t.slots[k], k, t.calls[i := cs'])
  {
    hide Weight, Sum, CallOk, CountsOk;
    WeightsElsewhere(t.calls[i], cs', k);
    assert SlotOk(hash, t.slots[k], k, t.calls);
    if t.slots[k].state >= 2 {
      SlotFollows(hash, t.calls, i, cs', k, t.slots[k], t.slots[k]);
    }
  }

  lemma OtherCall(hash: Key -> nat, t: Table, i: nat, j: nat, s': Slot, k: nat)
    requires Good(hash, t) && i < |t.calls| && j < |t.slots| && k < |t.calls| && k != i
    requires Grows(t.slots[j], s')
    requires s' != t.slots[j] ==> t.slots[j].state != 1 || Owns(t.calls[i], j)
    ensures CallOk(hash, t.slots[j := s'], t.calls[k])
  {
    hide SlotOk, CountsOk;
    assert CallOk(hash, t.slots, t.calls[k]);
    if Owns(t.calls[k], j) {
      assert t.slots[j].state == 1;
      assert !Owns(t.calls[i], j);
    }
    CallUnmoved(hash, t.slots, j, s', t.calls[k]);
  }

  lemma OwnersStayApart(hash: Key -> nat, t: Table, i: nat, j: nat, cs': CallState, a: nat, b: nat, x: nat)
    requires Good(hash, t) && i < |t.calls| && j < |t.slots| && a < b < |t.calls|
    requires Owns(cs', j) ==> Owns(t.calls[i], j) || t.slots[j].state == 0
    requires SlotOf(cs'.phase).Some? ==> SlotOf(cs'.phase) == Some(j)
    requires Owns(t.calls[i := cs'][a], x)
    ensures !Owns(t.calls[i := cs'][b], x)
  {
    hide SlotOk, CountsOk;
    assert CallOk(hash, t.slots, t.calls[a]) && CallOk(hash, t.slots, t.calls[b]);
  }

  // Every step keeps the invariant

  /** A step that leaves its slot alone. */
  lemma QuietStep(hash: Key -> nat, t: Table, t': Table, i: nat, j: nat, cs': CallState)
    requires Good(hash, t) && i < |t.calls| && j < |t.slots|
    requires t'.slots == t.slots && t'.calls == t.calls[i := cs']
    requires Forward(t.calls[i], cs')
    requires SlotOf(t.calls[i].phase).Some? ==> SlotOf(t.calls[i].phase) == Some(j)
    requires SlotOf(cs'.phase).Some? ==> SlotOf(cs'.phase) == Some(j)
    requires Owns(cs', j) ==> Owns(t.calls[i], j)
    requires Weight(Durations(j), t.calls[i]) == Weight(Durations(j), cs')
    requires Weight(Bytes(j), t.calls[i]) == Weight(Bytes(j), cs')
    requires Weight(Counts(j), t.calls[i]) == Weight(Counts(j), cs')
    requires Attached(cs', j, 6) ==> t.slots[j].least <= Duration(cs'.call)
    requires Attached(cs', j, 7) ==> Duration(cs'.call) <= t.slots[j].greatest
    requires CallOk(hash, t.slots, cs') && CountsOk(t')
    ensures Good(hash, t')
  {
    hide Weight, Sum, Published, CountsOk;
    assert SlotOk(hash, t.slots[j], j, t.calls);
    if t.slots[j].state >= 2 {
      SlotFollows(hash, t.calls, i, cs', j, t.slots[j], t.slots[j]);
    }
    assert t.slots[j := t.slots[j]] == t.slots;
    LocalStep(hash, t, t', i, j, cs', t.slots[j]);
  }

  /** A step that changes neither the published slots nor what a call owes the counters. */
  lemma SameCounts(t: Table, i: nat, cs': CallState)
    requires CountsOk(t) && i < |t.calls|
    ensures Sum(Uncounted, t.calls[i := cs']) + Weight(Uncounted, t.calls[i])
            == Sum(Uncounted, t.calls) + Weight(Uncounted, cs')
    ensures Sum(Drops, t.calls[i := cs']) + Weight(Drops, t.calls[i]) == Sum(Drops, t.calls) + Weight(Drops, cs')
  {
    SumUpdate(Uncounted, t.calls, i, cs');
    SumUpdate(Drops, t.calls, i, cs');
  }

  /** A step of a call that is on no slot before or after. */
  lemma FreeStep(hash: Key -> nat, t: Table, t': Table, i: nat, cs': CallState)
    requires Good(hash, t) && i < |t.calls|
    requires t'.slots == t.slots && t'.calls == t.calls[i := cs'] && cs'.call == t.calls[i].call
    requires SlotOf(t.calls[i].phase) == SlotOf(cs'.phase) == None
    requires CallOk(hash, t.slots, cs') && CountsOk(t')
    ensures Good(hash, t')
  {
    WeightsElsewhere(t.calls[i], cs', 0);
    hide Weight, Sum, Published, CountsOk, SlotOk, CallOk;
    assert CallOk(hash, t.slots, t.calls[i]);
    QuietStep(hash, t, t', i, 0, cs') by { assert cs'.phase != Overflowed by { ProbeFreePhase(hash, t.slots, cs'); } }
  }

  lemma ProbeFreePhase(hash: Key -> nat, slots: seq<Slot>, cs: CallState)
    requires CallOk(hash, slots, cs)
    ensures cs.phase != Overflowed
  {
  }

  lemma NextProbeOk(hash: Key -> nat, slots: seq<Slot>, key: Key, p: nat)
    requires p < |slots| && Tried(hash, slots, key, p)
    requires slots[SlotIndex(hash(key), p, |slots|)].state != 0
    ensures Tried(hash, slots, key, p + 1)
    ensures p + 1 >= |slots| ==> forall j :: 0 <= j < |slots| ==> slots[j].state != 0
  {
    if p + 1 >= |slots| {
      forall j | 0 <= j < |slots| ensures slots[j].state != 0 {
        var q := ProbeOf(hash(key), j, |slots|);
        assert q < p + 1;
      }
    }
  }

  /** A probe or claim that goes on to another phase without a slot. */
  lemma MissStep(hash: Key -> nat, t: Table, i: nat, phase: Phase)
    requires Good(hash, t) && i < |t.calls|
    requires t.calls[i].phase.Probing? || t.calls[i].phase.Claiming?
    requires var key, p := KeyOf(t.calls[i].call), t.calls[i].phase.probe;
             var s := t.slots[SlotIndex(hash(key), p, |t.slots|)];
             phase == if s.state == 0 then Claiming(p) else NextProbe(p, |t.slots|)
    ensures Good(hash, To(t, i, phase))
  {
    var key, p := KeyOf(t.calls[i].call), t.calls[i].phase.probe;
    hide Sum, Published, SlotOk, SlotIndex;
    assert CallOk(hash, t.slots, t.calls[i]);
    if t.slots[SlotIndex(hash(key), p, |t.slots|)].state != 0 { NextProbeOk(hash, t.slots, key, p); }
    SameCounts(t, i, t.calls[i].(phase := phase));
    FreeStep(hash, t, To(t, i, phase), i, t.calls[i].(phase := phase));
  }

  lemma HitStep(hash: Key -> nat, t: Table, i: nat, j: nat)
    requires Good(hash, t) && i < |t.calls| && t.calls[i].phase.Probing? && j < |t.slots|
    requires t.slots[j].state >= 2 && t.slots[j].key == KeyOf(t.calls[i].call)
    ensures Good(hash, To(t, i, AddingDuration(j)))
  {
    hide Sum, Published, SlotOk, SlotIndex, CallOk, OwnersApart;
    var cs' := t.calls[i].(phase := AddingDuration(j));
    HitCall(hash, t.slots, t.calls[i], j);
    SameCounts(t, i, cs');
    QuietStep(hash, t, To(t, i, AddingDuration(j)), i, j, cs');
  }

  lemma HitCall(hash: Key -> nat, slots: seq<Slot>, cs: CallState, j: nat)
    requires CallOk(hash, slots, cs) && j < |slots| && slots[j].state >= 2 && slots[j].key == KeyOf(cs.call)
    ensures CallOk(hash, slots, cs.(phase := AddingDuration(j)))
  {
    hide Tried;
  }

  lemma DropStep(hash: Key -> nat, t: Table, i: nat)
    requires Good(hash, t) && i < |t.calls| && t.calls[i].phase.Dropping?
    ensures Good(hash, To(t, i, Limiting).(dropped := t.dropped + 1))
  {
    var cs' := t.calls[i].(phase := Limiting);
    hide Sum, Published, SlotOk;
    assert CallOk(hash, t.slots, t.calls[i]);
    SameCounts(t, i, cs');
    FreeStep(hash, t, To(t, i, Limiting).(dropped := t.dropped + 1), i, cs');
  }

  lemma LimitStep(hash: Key -> nat, t: Table, i: nat)
    requires Good(hash, t) && i < |t.calls| && t.calls[i].phase.Limiting?
    ensures Good(hash, To(t, i, Dropped).(captureState := LimitReached))
  {
    var cs' := t.calls[i].(phase := Dropped);
    hide Sum, Published, SlotOk;
    assert CallOk(hash, t.slots, t.calls[i]);
    SameCounts(t, i, cs');
    FreeStep(hash, t, To(t, i, Dropped).(captureState := LimitReached), i, cs');
  }

  lemma ClaimStep(hash: Key -> nat, t: Table, i: nat, j: nat)
    requires Good(hash, t) && i < |t.calls| && t.calls[i].phase.Claiming? && j < |t.slots|
    requires t.slots[j].state == 0
    ensures Good(hash, To(WithSlot(t, j, t.slots[j].(state := 1)), i, Filling(j)))
  {
    var s', cs' := t.slots[j].(state := 1), t.calls[i].(phase := Filling(j));
    hide Sum, Published;
    assert CallOk(hash, t.slots, t.calls[i]);
    SameCounts(t, i, cs');
    PublishedUpdate(t.slots, j, s');
    LocalStep(hash, t, To(WithSlot(t, j, s'), i, Filling(j)), i, j, cs', s');
  }

  lemma FillStep(hash: Key -> nat, t: Table, i: nat, j: nat)
    requires Good(hash, t) && i < |t.calls| && t.calls[i].phase == Filling(j) && j < |t.slots|
    ensures var s' := Slot(1, KeyOf(t.calls[i].call), 0, 0, U64 - 1, 0, 0);
            Good(hash, To(WithSlot(t, j, s'), i, Publishing(j)))
  {
    var s' := Slot(1, KeyOf(t.calls[i].call), 0, 0, U64 - 1, 0, 0);
    var cs' := t.calls[i].(phase := Publishing(j));
    hide Sum, Published;
    assert CallOk(hash, t.slots, t.calls[i]);
    SameCounts(t, i, cs');
    PublishedUpdate(t.slots, j, s');
    LocalStep(hash, t, To(WithSlot(t, j, s'), i, Publishing(j)), i, j, cs', s');
  }

  /** Nobody is attached to a slot that is not published. */
  lemma Unattached(hash: Key -> nat, t: Table, j: nat, i: nat)
    requires Good(hash, t) && j < |t.slots| && t.slots[j].state < 2 && i < |t.calls|
    ensures SlotOf(t.calls[i].phase) == Some(j) ==> Stage(t.calls[i].phase) == 0
  {
    hide SlotOk, CountsOk;
    assert CallOk(hash, t.slots, t.calls[i]);
  }

  lemma PublishingSlot(hash: Key -> nat, t: Table, i: nat, j: nat)
    requires Good(hash, t) && i < |t.calls| && t.calls[i].phase == Publishing(j) && j < |t.slots|
    ensures t.slots[j] == Slot(1, KeyOf(t.calls[i].call), 0, 0, U64 - 1, 0, 0) && Timed(t.calls[i].call)
  {
    hide SlotOk, CountsOk, OwnersApart;
    assert CallOk(hash, t.slots, t.calls[i]);
  }

  lemma FreshCall(hash: Key -> nat, t: Table, i: nat, j: nat, k: nat)
    requires Good(hash, t) && i < |t.calls| && t.calls[i].phase == Publishing(j) && j < |t.slots| && k < |t.calls|
    ensures var cs := t.calls[i := t.calls[i].(phase := Counting(j))][k];
      && Weight(Durations(j), cs) == Weight(Bytes(j), cs) == Weight(Counts(j), cs) == 0
      && !Attached(cs, j, 6)
  {
    PublishingSlot(hash, t, i, j);
    Unattached(hash, t, j, k);
    hide Good;
  }

  /** At publication the zeroed counters are the sums over no call. */
  lemma FreshSlot(hash: Key -> nat, t: Table, i: nat, j: nat)
    requires Good(hash, t) && i < |t.calls| && t.calls[i].phase == Publishing(j) && j < |t.slots|
    requires HashOk(hash)
    ensures var s' := t.slots[j].(state := hash(KeyOf(t.calls[i].call)));
            SlotOk(hash, s', j, t.calls[i := t.calls[i].(phase := Counting(j))])
  {
    hide Weight, Good, CallOk;
    var cs' := t.calls[i].(phase := Counting(j));
    var calls' := t.calls[i := cs'];
    PublishingSlot(hash, t, i, j);
    forall k | 0 <= k < |calls'|
      ensures Weight(Durations(j), calls'[k]) == Weight(Bytes(j), calls'[k]) == Weight(Counts(j), calls'[k]) == 0
      ensures !Attached(calls'[k], j, 6)
    {
      FreshCall(hash, t, i, j, k);
    }
    SumZero(Durations(j), calls');
    SumZero(Bytes(j), calls');
    SumZero(Counts(j), calls');
    assert Attached(calls'[i], j, 1);
    assert forall k :: 0 <= k < |calls'| && Attached(calls'[k], j, 7) ==> Attached(calls'[k], j, 6);
  }

  lemma PublishStep(hash: Key -> nat, t: Table, i: nat, j: nat)
    requires HashOk(hash) && Good(hash, t) && i < |t.calls| && t.calls[i].phase == Publishing(j) && j < |t.slots|
    ensures var s' := t.slots[j].(state := hash(KeyOf(t.calls[i].call)));
            Good(hash, To(WithSlot(t, j, s'), i, Counting(j)))
  {
    var s' := t.slots[j].(state := hash(KeyOf(t.calls[i].call)));
    var cs' := t.calls[i].(phase := Counting(j));
    FreshSlot(hash, t, i, j);
    hide Sum, Published, SlotOk;
    assert CallOk(hash, t.slots, t.calls[i]);
    SameCounts(t, i, cs');
    PublishedUpdate(t.slots, j, s');
    LocalStep(hash, t, To(WithSlot(t, j, s'), i, Counting(j)), i, j, cs', s');
  }

  lemma CountStep(hash: Key -> nat, t: Table, i: nat, j: nat)
    requires Good(hash, t) && i < |t.calls| && t.calls[i].phase == Counting(j) && j < |t.slots|
    ensures Good(hash, To(t, i, AddingDuration(j)).(committed := t.committed + 1))
  {
    hide Good, Sum, Published, SlotOk;
    var cs' := t.calls[i].(phase := AddingDuration(j));
    GoodCall(hash, t, i);
    GoodCounts(hash, t);
    SameCounts(t, i, cs');
    QuietStep(hash, t, To(t, i, AddingDuration(j)).(committed := t.committed + 1), i, j, cs');
  }

  lemma GoodCounts(hash: Key -> nat, t: Table)
    requires Good(hash, t)
    ensures CountsOk(t)
  {
  }

  /** A step of an attached call that updates its slot in place. */
  lemma UpdateStep(hash: Key -> nat, t: Table, i: nat, j: nat, s': Slot, phase: Phase)
    requires Good(hash, t) && i < |t.calls| && j < |t.slots|
    requires Stage(t.calls[i].phase) >= 2 && SlotOf(t.calls[i].phase) == Some(j)
    requires Forward(t.calls[i], t.calls[i].(phase := phase))
    requires Follows(t.calls[i], t.calls[i].(phase := phase), j, t.slots[j], s')
    requires phase.SwappingMin? ==> Duration(t.calls[i].call) < phase.current
    requires phase.SwappingMax? ==> Duration(t.calls[i].call) > phase.current
    ensures Good(hash, To(WithSlot(t, j, s'), i, phase))
  {
    var cs', s := t.calls[i].(phase := phase), t.slots[j];
    UpdateCall(hash, t, i, j, s', phase);
    hide Sum, Published, Weight, CallOk, Follows, Stage;
    assert SlotOk(hash, s, j, t.calls);
    SlotFollows(hash, t.calls, i, cs', j, s, s');
    LocalStep(hash, t, To(WithSlot(t, j, s'), i, phase), i, j, cs', s');
  }

  lemma GoodCall(hash: Key -> nat, t: Table, i: nat)
    requires Good(hash, t) && i < |t.calls|
    ensures CallOk(hash, t.slots, t.calls[i])
  {
  }

  lemma UpdateCall(hash: Key -> nat, t: Table, i: nat, j: nat, s': Slot, phase: Phase)
    requires Good(hash, t) && i < |t.calls| && j < |t.slots|
    requires Stage(t.calls[i].phase) >= 2 && SlotOf(t.calls[i].phase) == Some(j)
    requires Forward(t.calls[i], t.calls[i].(phase := phase))
    requires s'.state == t.slots[j].state && s'.key == t.slots[j].key && Timed(t.calls[i].call)
    requires phase.SwappingMin? ==> Duration(t.calls[i].call) < phase.current
    requires phase.SwappingMax? ==> Duration(t.calls[i].call) > phase.current
    ensures CallOk(hash, t.slots[j := s'], t.calls[i].(phase := phase))
    ensures CountsOk(To(WithSlot(t, j, s'), i, phase))
    ensures t.slots[j].state >= 2 && Grows(t.slots[j], s')
    ensures SlotOf(phase) == Some(j) && !Owns(t.calls[i].(phase := phase), j)
  {
    hide Good, Sum, Published, CountsOk;
    var cs' := t.calls[i].(phase := phase);
    UpdatePhase(t.calls[i], cs', j);
    GoodCall(hash, t, i);
    UpdateCounts(hash, t, i, j, s', phase);
  }

  lemma UpdateCounts(hash: Key -> nat, t: Table, i: nat, j: nat, s': Slot, phase: Phase)
    requires Good(hash, t) && i < |t.calls| && j < |t.slots| && s'.state == t.slots[j].state
    requires Stage(t.calls[i].phase) >= 2 && SlotOf(t.calls[i].phase) == Some(j)
    requires Forward(t.calls[i], t.calls[i].(phase := phase))
    ensures CountsOk(To(WithSlot(t, j, s'), i, phase))
  {
    hide Sum, Published, SlotOk, CallOk;
    var cs' := t.calls[i].(phase := phase);
    UpdatePhase(t.calls[i], cs', j);
    hide Stage, SlotOf;
    SameCounts(t, i, cs');
    PublishedUpdate(t.slots, j, s');
  }

  lemma UpdatePhase(cs: CallState, cs': CallState, j: nat)
    requires Stage(cs.phase) >= 2 && SlotOf(cs.phase) == Some(j) && Forward(cs, cs')
    ensures SlotOf(cs'.phase) == Some(j) && Stage(cs'.phase) >= 2 && !Owns(cs', j)
    ensures Weight(Uncounted, cs) == Weight(Uncounted, cs') == Weight(Drops, cs) == Weight(Drops, cs') == 0
  {
  }

  lemma AddStep(hash: Key -> nat, t: Table, i: nat, j: nat, s': Slot, phase: Phase)
    requires Good(hash, t) && i < |t.calls| && j < |t.slots| && Timed(t.calls[i].call)
    requires Fits64(t.slots[j]) ==> Fits64(s')
    requires var c, s, from := t.calls[i].call, t.slots[j], t.calls[i].phase;
             || (from == AddingDuration(j) && s' == s.(duration := s.duration + Duration(c))
                 && phase == if c.bytes != 0 then AddingBytes(j) else AddingCount(j))
             || (from == AddingBytes(j) && s' == s.(bytes := s.bytes + c.bytes) && phase == AddingCount(j))
             || (from == AddingCount(j) && s' == s.(count := s.count + 1) && phase == LoadingMin(j))
    ensures Good(hash, To(WithSlot(t, j, s'), i, phase))
  {
    hide Good;
    UpdateStep(hash, t, i, j, s', phase);
  }

  lemma MinStep(hash: Key -> nat, t: Table, i: nat, j: nat, s': Slot, phase: Phase)
    requires Good(hash, t) && i < |t.calls| && j < |t.slots| && Timed(t.calls[i].call)
    requires var d, s, from := Duration(t.calls[i].call), t.slots[j], t.calls[i].phase;
             && (from == LoadingMin(j) || (from.SwappingMin? && from.slot == j))
             && (|| (s' == s && phase == if d < s.least then SwappingMin(j, s.least) else LoadingMax(j))
                 || (from.SwappingMin? && s.least == from.current && d < from.current
                     && s' == s.(least := d) && phase == LoadingMax(j)))
    ensures Good(hash, To(WithSlot(t, j, s'), i, phase))
  {
    hide Good;
    UpdateStep(hash, t, i, j, s', phase);
  }

  lemma MaxStep(hash: Key -> nat, t: Table, i: nat, j: nat, s': Slot, phase: Phase)
    requires Good(hash, t) && i < |t.calls| && j < |t.slots| && Timed(t.calls[i].call)
    requires t.slots[j].state >= 2 && LeastSeen(t, i, j)
    requires var d, s, from := Duration(t.calls[i].call), t.slots[j], t.calls[i].phase;
             && (from == LoadingMax(j) || (from.SwappingMax? && from.slot == j))
             && (|| (s' == s && phase == if d > s.greatest then SwappingMax(j, s.greatest) else Done(j))
                 || (from.SwappingMax? && s.greatest == from.current && d > from.current
                     && s' == s.(greatest := d) && phase == Done(j)))
    ensures Good(hash, To(WithSlot(t, j, s'), i, phase))
  {
    hide Good;
    UpdateStep(hash, t, i, j, s', phase);
  }

  ghost predicate LeastSeen(t: Table, i: nat, j: nat)
    requires i < |t.calls| && j < |t.slots| && Timed(t.calls[i].call)
  {
    t.slots[j].least <= Duration(t.calls[i].call)
  }

  /** A call that is done with the minimum has made its slot's least at most its duration. */
  lemma LeastBelow(hash: Key -> nat, t: Table, i: nat, j: nat)
    requires Good(hash, t) && i < |t.calls| && j < |t.slots| && Timed(t.calls[i].call)
    requires SlotOf(t.calls[i].phase) == Some(j) && Stage(t.calls[i].phase) >= 6
    ensures t.slots[j].state >= 2 && LeastSeen(t, i, j)
  {
    hide CountsOk, Sum;
    assert CallOk(hash, t.slots, t.calls[i]);
    assert SlotOk(hash, t.slots[j], j, t.calls);
    assert Attached(t.calls[i], j, 6);
  }

  lemma InsertAdvances(hash: Key -> nat, t: Table, i: nat, spurious: bool)
    requires HashOk(hash) && Good(hash, t) && Enabled(t, Advance(i, spurious))
    requires t.calls[i].phase.Probing? || t.calls[i].phase.Claiming?
    ensures Good(hash, Exec(hash, t, Advance(i, spurious)))
  {
    var c, phase := t.calls[i].call, t.calls[i].phase;
    var j := SlotIndex(hash(KeyOf(c)), phase.probe, |t.slots|);
    hide Good, SlotIndex;
    if phase.Probing? && t.slots[j].state == hash(KeyOf(c)) && t.slots[j].key == KeyOf(c) {
      HitStep(hash, t, i, j);
    } else if phase.Claiming? && t.slots[j].state == 0 {
      ClaimStep(hash, t, i, j);
    } else {
      MissStep(hash, t, i, if t.slots[j].state == 0 then Claiming(phase.probe) else NextProbe(phase.probe, |t.slots|));
    }
  }

  lemma AddAdvances(hash: Key -> nat, t: Table, i: nat, spurious: bool, j: nat)
    requires Good(hash, t) && Enabled(t, Advance(i, spurious)) && SlotOf(t.calls[i].phase) == Some(j)
    requires 2 <= Stage(t.calls[i].phase) <= 4
    ensures Inv(hash, Exec(hash, t, Advance(i, spurious)))
  {
    hide Good;
    var t' := Exec(hash, t, Advance(i, spurious));
    if t'.calls[i].phase != Overflowed { AddStep(hash, t, i, j, t'.slots[j], t'.calls[i].phase); }
  }

  lemma MinAdvances(hash: Key -> nat, t: Table, i: nat, spurious: bool, j: nat)
    requires Good(hash, t) && Enabled(t, Advance(i, spurious)) && SlotOf(t.calls[i].phase) == Some(j)
    requires Stage(t.calls[i].phase) == 5
    ensures Good(hash, Exec(hash, t, Advance(i, spurious)))
  {
    hide Good;
    GoodCall(hash, t, i);
    var t' := Exec(hash, t, Advance(i, spurious));
    assert t.slots[j := t.slots[j]] == t.slots;
    MinStep(hash, t, i, j, t'.slots[j], t'.calls[i].phase);
  }

  lemma MaxAdvances(hash: Key -> nat, t: Table, i: nat, spurious: bool, j: nat)
    requires Good(hash, t) && Enabled(t, Advance(i, spurious)) && SlotOf(t.calls[i].phase) == Some(j)
    requires Stage(t.calls[i].phase) == 6
    ensures Good(hash, Exec(hash, t, Advance(i, spurious)))
  {
    hide Good;
    GoodCall(hash, t, i);
    LeastBelow(hash, t, i, j);
    var t' := Exec(hash, t, Advance(i, spurious));
    assert t.slots[j := t.slots[j]] == t.slots;
    MaxStep(hash, t, i, j, t'.slots[j], t'.calls[i].phase);
  }

  lemma AdvanceKeeps(hash: Key -> nat, t: Table, i: nat, spurious: bool)
    requires HashOk(hash) && Good(hash, t) && Enabled(t, Advance(i, spurious))
    ensures Inv(hash, Exec(hash, t, Advance(i, spurious)))
  {
    hide Good, SlotIndex;
    match t.calls[i].phase
    case Probing(_) => InsertAdvances(hash, t, i, spurious);
    case Claiming(_) => InsertAdvances(hash, t, i, spurious);
    case Filling(j) => FillStep(hash, t, i, j);
    case Publishing(j) => PublishStep(hash, t, i, j);
    case Counting(j) => CountStep(hash, t, i, j);
    case AddingDuration(j) => AddAdvances(hash, t, i, spurious, j);
    case AddingBytes(j) => AddAdvances(hash, t, i, spurious, j);
    case AddingCount(j) => AddAdvances(hash, t, i, spurious, j);
    case LoadingMin(j) => MinAdvances(hash, t, i, spurious, j);
    case SwappingMin(j, _) => MinAdvances(hash, t, i, spurious, j);
    case LoadingMax(j) => MaxAdvances(hash, t, i, spurious, j);
    case SwappingMax(j, _) => MaxAdvances(hash, t, i, spurious, j);
    case Dropping => DropStep(hash, t, i);
    case Limiting => LimitStep(hash, t, i);
  }

  lemma BeginKeeps(hash: Key -> nat, t: Table, c: Call)
    requires Good(hash, t) && Timed(c) && c.endNs < U64 && c.bytes < U64
    ensures Good(hash, t.(calls := t.calls + [CallState(c, Probing(0))]))
  {
    hide Sum, SlotOk, CallOk;
    var cs := CallState(c, Probing(0));
    BeginCall(hash, t.slots, c);
    SumAppend(Uncounted, t.calls, cs);
    SumAppend(Drops, t.calls, cs);
    BeginSlots(hash, t, cs);
  }

  lemma BeginCall(hash: Key -> nat, slots: seq<Slot>, c: Call)
    requires |slots| > 0 && Timed(c) && c.endNs < U64 && c.bytes < U64
    ensures CallOk(hash, slots, CallState(c, Probing(0)))
  {
  }

  lemma BeginSlots(hash: Key -> nat, t: Table, cs: CallState)
    requires Good(hash, t) && SlotOf(cs.phase) == None
    ensures forall j: nat :: j < |t.slots| ==> SlotOk(hash, t.slots[j], j, t.calls + [cs])
  {
    hide SlotOk, CallOk, CountsOk, OwnersApart;
    forall j: nat | j < |t.slots| ensures SlotOk(hash, t.slots[j], j, t.calls + [cs]) {
      NewCall(hash, t.slots[j], j, t.calls, cs);
    }
  }

  lemma NewCall(hash: Key -> nat, s: Slot, j: nat, calls: seq<CallState>, cs: CallState)
    requires SlotOk(hash, s, j, calls) && SlotOf(cs.phase) == None
    ensures SlotOk(hash, s, j, calls + [cs])
  {
    SumAppend(Durations(j), calls, cs);
    SumAppend(Bytes(j), calls, cs);
    SumAppend(Counts(j), calls, cs);
    hide Sum;
    var calls' := calls + [cs];
    assert forall i, n: nat :: 0 <= i < |calls| && Attached(calls[i], j, n) ==> Attached(calls'[i], j, n);
    assert forall i, n: nat :: 0 <= i < |calls'| && Attached(calls'[i], j, n) ==> i < |calls| && Attached(calls[i], j, n);
  }

  lemma StepKeeps(hash: Key -> nat, t: Table, step: Step)
    requires HashOk(hash) && Inv(hash, t) && Enabled(t, step)
    ensures Inv(hash, Exec(hash, t, step))
  {
    if NoOverflow(t) {
      match step
      case Begin(c) => if Timed(c) { BeginKeeps(hash, t, c); }
      case Advance(i, spurious) => AdvanceKeeps(hash, t, i, spurious);
      case Mark(_) =>
    } else {
      OverflowStays(hash, t, step);
    }
  }

  lemma OverflowStays(hash: Key -> nat, t: Table, step: Step)
    requires Enabled(t, step) && !NoOverflow(t)
    ensures !NoOverflow(Exec(hash, t, step))
  {
    var i :| 0 <= i < |t.calls| && t.calls[i].phase.Overflowed?;
    assert Exec(hash, t, step).calls[i] == t.calls[i];
  }

  lemma {:induction false} RunKeeps(hash: Key -> nat, t: Table, steps: seq<Step>)
    requires HashOk(hash) && Inv(hash, t) && Legal(hash, t, steps)
    ensures Inv(hash, Run(hash, t, steps))
    decreases |steps|
  {
    hide Inv;
    if steps != [] {
      StepKeeps(hash, t, steps[0]);
      RunKeeps(hash, Exec(hash, t, steps[0]), steps[1..]);
    }
  }

  // What the table says when no call is in flight

  datatype Quantity = OfDuration | OfBytes | OfCount

  function Field(q: Quantity, s: Slot): nat {
    match q case OfDuration => s.duration case OfBytes => s.bytes case OfCount => s.count
  }

  function Amount(q: Quantity, c: Call): nat {
    match q case OfDuration => if c.startNs <= c.endNs then c.endNs - c.startNs else 0 case OfBytes => c.bytes case OfCount => 1
  }

  function MeasureOf(q: Quantity, j: nat): Measure {
    match q case OfDuration => Durations(j) case OfBytes => Bytes(j) case OfCount => Counts(j)
  }

  predicate AnyKey(key: Key) { true }

  /** A counter summed over the published slots of the selected keys, from slot `j` on. */
  ghost function SlotSum(q: Quantity, sel: Key -> bool, slots: seq<Slot>, j: nat): (n: nat)
    requires j <= |slots|
    decreases |slots| - j
  {
    if j == |slots| then 0
    else (if slots[j].state >= 2 && sel(slots[j].key) then Field(q, slots[j]) else 0)
         + SlotSum(q, sel, slots, j + 1)
  }

  /** The same quantity summed over the calls that were not dropped. */
  ghost function CallSum(q: Quantity, sel: Key -> bool, calls: seq<CallState>): (n: nat) {
    if calls == [] then 0
    else (if calls[0].phase.Done? && sel(KeyOf(calls[0].call)) then Amount(q, calls[0].call) else 0)
         + CallSum(q, sel, calls[1..])
  }

  ghost function CrossSum(q: Quantity, sel: Key -> bool, slots: seq<Slot>, calls: seq<CallState>, j: nat): (n: nat)
    requires j <= |slots|
    decreases |slots| - j
  {
    if j == |slots| then 0
    else (if slots[j].state >= 2 && sel(slots[j].key) then Sum(MeasureOf(q, j), calls) else 0)
         + CrossSum(q, sel, slots, calls, j + 1)
  }

  lemma {:induction false} SlotSumIsCross(hash: Key -> nat, q: Quantity, sel: Key -> bool, t: Table, j: nat)
    requires Good(hash, t) && j <= |t.slots|
    ensures SlotSum(q, sel, t.slots, j) == CrossSum(q, sel, t.slots, t.calls, j)
    decreases |t.slots| - j
  {
    hide CallOk, CountsOk, OwnersApart, Sum;
    if j < |t.slots| {
      assert SlotOk(hash, t.slots[j], j, t.calls);
      SlotSumIsCross(hash, q, sel, t, j + 1);
    }
  }

  lemma {:induction false} CrossEmpty(q: Quantity, sel: Key -> bool, slots: seq<Slot>, j: nat)
    requires j <= |slots|
    ensures CrossSum(q, sel, slots, [], j) == 0
    decreases |slots| - j
  {
    if j < |slots| { CrossEmpty(q, sel, slots, j + 1); }
  }

  /** What one settled call adds to the slots from `j` on. */
  ghost function Share(q: Quantity, sel: Key -> bool, cs: CallState, j: nat): (n: nat) {
    if cs.phase.Done? && cs.phase.slot >= j && sel(KeyOf(cs.call)) then Amount(q, cs.call) else 0
  }

  ghost predicate Settled(slots: seq<Slot>, cs: CallState) {
    && Timed(cs.call)
    && (cs.phase.Done? || cs.phase.Dropped?)
    && (cs.phase.Done? ==>
          && cs.phase.slot < |slots| && slots[cs.phase.slot].state >= 2
          && slots[cs.phase.slot].key == KeyOf(cs.call))
  }

  lemma {:induction false} CrossSplit(q: Quantity, sel: Key -> bool, slots: seq<Slot>, calls: seq<CallState>, j: nat)
    requires j <= |slots| && calls != [] && Settled(slots, calls[0])
    ensures CrossSum(q, sel, slots, calls, j)
            == Share(q, sel, calls[0], j) + CrossSum(q, sel, slots, calls[1..], j)
    decreases |slots| - j
  {
    if j < |slots| { CrossSplit(q, sel, slots, calls, j + 1); }
  }

  lemma {:induction false} CrossIsCallSum(q: Quantity, sel: Key -> bool, slots: seq<Slot>, calls: seq<CallState>)
    requires forall i :: 0 <= i < |calls| ==> Settled(slots, calls[i])
    ensures CrossSum(q, sel, slots, calls, 0) == CallSum(q, sel, calls)
  {
    if calls == [] {
      CrossEmpty(q, sel, slots, 0);
    } else {
      CrossSplit(q, sel, slots, calls, 0);
      CrossIsCallSum(q, sel, slots, calls[1..]);
    }
  }

  lemma AllSettled(hash: Key -> nat, t: Table)
    requires Good(hash, t) && Quiescent(t)
    ensures forall i :: 0 <= i < |t.calls| ==> Settled(t.slots, t.calls[i])
  {
    hide SlotOk, CountsOk, OwnersApart;
    forall i | 0 <= i < |t.calls| ensures Settled(t.slots, t.calls[i]) {
      assert CallOk(hash, t.slots, t.calls[i]);
    }
  }

  ghost predicate Reaches(hash: Key -> nat, t: Table, capacity: nat, steps: seq<Step>, t': Table) {
    && HashOk(hash) && Init(t, capacity) && Legal(hash, t, steps) && t' == Run(hash, t, steps)
  }

  lemma ReachedGood(hash: Key -> nat, t: Table, capacity: nat, steps: seq<Step>, t': Table)
    requires Reaches(hash, t, capacity, steps, t')
    ensures Inv(hash, t')
  {
    assert Published(t.slots) == 0 by { PublishedNone(t.slots); }
    RunKeeps(hash, t, steps);
  }

  lemma {:induction false} PublishedNone(slots: seq<Slot>)
    requires forall i :: 0 <= i < |slots| ==> slots[i].state < 2
    ensures Published(slots) == 0
  {
    if slots != [] { PublishedNone(slots[1..]); }
  }

  /** In every interleaving that ends with no call in flight and no counter about to wrap, the
      published slots of each key, or of any set of keys, sum to the fold over its calls that
      were not dropped, however many slots racing inserts left for a key. */
  lemma QuiescentSums(hash: Key -> nat, t: Table, capacity: nat, steps: seq<Step>, t': Table,
                      q: Quantity, sel: Key -> bool)
    requires Reaches(hash, t, capacity, steps, t') && Quiescent(t') && NoOverflow(t')
    ensures SlotSum(q, sel, t'.slots, 0) == CallSum(q, sel, t'.calls)
  {
    ReachedGood(hash, t, capacity, steps, t');
    SlotSumIsCross(hash, q, sel, t', 0);
    AllSettled(hash, t');
    CrossIsCallSum(q, sel, t'.slots, t'.calls);
  }

  lemma {:induction false} CountedOrDropped(slots: seq<Slot>, calls: seq<CallState>)
    requires forall i :: 0 <= i < |calls| ==> Settled(slots, calls[i])
    ensures CallSum(OfCount, AnyKey, calls) + Sum(Drops, calls) == |calls|
    ensures Sum(Uncounted, calls) == 0
  {
    if calls != [] { CountedOrDropped(slots, calls[1..]); }
  }

  /** Slot counts plus drops are the accepted calls, and the committed count is the number of
      slots that a capture writes out. */
  lemma QuiescentCounts(hash: Key -> nat, t: Table, capacity: nat, steps: seq<Step>, t': Table)
    requires Reaches(hash, t, capacity, steps, t') && Quiescent(t') && NoOverflow(t')
    ensures SlotSum(OfCount, AnyKey, t'.slots, 0) + t'.dropped == |t'.calls|
    ensures t'.committed == Published(t'.slots)
  {
    QuiescentSums(hash, t, capacity, steps, t', OfCount, AnyKey);
    ReachedGood(hash, t, capacity, steps, t');
    AllSettled(hash, t');
    CountedOrDropped(t'.slots, t'.calls);
  }

  lemma {:induction false} SomeCall(m: Measure, calls: seq<CallState>) returns (i: nat)
    requires Sum(m, calls) > 0
    ensures i < |calls| && Weight(m, calls[i]) > 0
  {
    hide Weight;
    if Weight(m, calls[0]) > 0 {
      i := 0;
    } else {
      var k := SomeCall(m, calls[1..]);
      i := k + 1;
    }
  }

  /** A call is dropped only when no slot is empty any more. */
  lemma DropMeansFull(hash: Key -> nat, t: Table, capacity: nat, steps: seq<Step>, t': Table)
    requires Reaches(hash, t, capacity, steps, t') && NoOverflow(t') && t'.dropped > 0
    ensures forall j :: 0 <= j < |t'.slots| ==> t'.slots[j].state != 0
  {
    ReachedGood(hash, t, capacity, steps, t');
    hide Reaches, SlotOk, OwnersApart, Published, Sum;
    var i := SomeCall(Drops, t'.calls);
    assert CallOk(hash, t'.slots, t'.calls[i]);
  }

  /** Once every call is settled, being attached means being done. */
  lemma AttachedDone(slots: seq<Slot>, calls: seq<CallState>, j: nat)
    requires forall i :: 0 <= i < |calls| ==> Settled(slots, calls[i])
    ensures forall i, n: nat :: 0 <= i < |calls| && 1 <= n <= 7 ==>
              (Attached(calls[i], j, n) <==> calls[i].phase == Done(j))
  {
    forall i, n: nat | 0 <= i < |calls| && 1 <= n <= 7
      ensures Attached(calls[i], j, n) <==> calls[i].phase == Done(j)
    {
      assert Settled(slots, calls[i]);
    }
  }

  /** Some call ended on every published slot. */
  lemma SlotUsed(hash: Key -> nat, t: Table, j: nat) returns (w: nat)
    requires Good(hash, t) && Quiescent(t) && j < |t.slots| && t.slots[j].state >= 2
    ensures w < |t.calls| && t.calls[w].phase == Done(j)
    ensures Timed(t.calls[w].call) && Duration(t.calls[w].call) < U64 - 1
    ensures LeastOk(t.slots[j], j, t.calls) && GreatestOk(t.slots[j], j, t.calls)
  {
    AllSettled(hash, t);
    assert SlotOk(hash, t.slots[j], j, t.calls);
    AttachedDone(t.slots, t.calls, j);
    hide SlotOk, CountsOk, Attached;
    w :| 0 <= w < |t.calls| && Attached(t.calls[w], j, 1);
    assert CallOk(hash, t.slots, t.calls[w]);
  }

  /** The least and greatest of a published slot are durations of calls of its key, and bound
      the duration of every call that ended on it. */
  lemma SlotBounds(hash: Key -> nat, t: Table, j: nat) returns (low: nat, high: nat)
    requires Good(hash, t) && Quiescent(t) && j < |t.slots| && t.slots[j].state >= 2
    ensures low < |t.calls| && high < |t.calls|
    ensures t.calls[low].phase == t.calls[high].phase == Done(j)
    ensures Timed(t.calls[low].call) && Timed(t.calls[high].call)
    ensures Duration(t.calls[low].call) == t.slots[j].least && Duration(t.calls[high].call) == t.slots[j].greatest
    ensures KeyOf(t.calls[low].call) == KeyOf(t.calls[high].call) == t.slots[j].key
    ensures forall i :: 0 <= i < |t.calls| && t.calls[i].phase == Done(j) && Timed(t.calls[i].call) ==>
              t.slots[j].least <= Duration(t.calls[i].call) <= t.slots[j].greatest
  {
    var w := SlotUsed(hash, t, j);
    AllSettled(hash, t);
    AttachedDone(t.slots, t.calls, j);
    hide Good, Attached;
    assert Attached(t.calls[w], j, 6) && Attached(t.calls[w], j, 7);
    low :| 0 <= low < |t.calls| && Attached(t.calls[low], j, 5) && Duration(t.calls[low].call) == t.slots[j].least;
    high := w;
    if t.slots[j].greatest != 0 {
      high :| 0 <= high < |t.calls| && Attached(t.calls[high], j, 6)
              && Duration(t.calls[high].call) == t.slots[j].greatest;
    }
    assert Settled(t.slots, t.calls[low]) && Settled(t.slots, t.calls[high]);
    forall i | 0 <= i < |t.calls| && t.calls[i].phase == Done(j) && Timed(t.calls[i].call)
      ensures t.slots[j].least <= Duration(t.calls[i].call) <= t.slots[j].greatest
    {
      assert Attached(t.calls[i], j, 6) && Attached(t.calls[i], j, 7);
    }
  }

  /** Least of the minima and greatest of the maxima: a bound holds for the published slots of
      the selected keys exactly when it holds for the durations of their calls that were not
      dropped. */
  lemma QuiescentExtremes(hash: Key -> nat, t0: Table, capacity: nat, steps: seq<Step>, t: Table,
                          sel: Key -> bool, bound: nat)
    requires Reaches(hash, t0, capacity, steps, t) && Quiescent(t) && NoOverflow(t)
    ensures (forall j :: 0 <= j < |t.slots| && t.slots[j].state >= 2 && sel(t.slots[j].key) ==>
               bound <= t.slots[j].least)
            <==> (forall i :: 0 <= i < |t.calls| && t.calls[i].phase.Done? && sel(KeyOf(t.calls[i].call)) ==>
                    bound <= t.calls[i].call.endNs - t.calls[i].call.startNs)
    ensures (forall j :: 0 <= j < |t.slots| && t.slots[j].state >= 2 && sel(t.slots[j].key) ==>
               t.slots[j].greatest <= bound)
            <==> (forall i :: 0 <= i < |t.calls| && t.calls[i].phase.Done? && sel(KeyOf(t.calls[i].call)) ==>
                    t.calls[i].call.endNs - t.calls[i].call.startNs <= bound)
  {
    hide Good, Reaches, Quiescent;
    ReachedGood(hash, t0, capacity, steps, t);
    AllSettled(hash, t);
    forall i | 0 <= i < |t.calls| && t.calls[i].phase.Done? && sel(KeyOf(t.calls[i].call))
      ensures var j := t.calls[i].phase.slot;
              && Timed(t.calls[i].call) && j < |t.slots| && t.slots[j].state >= 2 && sel(t.slots[j].key)
              && t.slots[j].least <= Duration(t.calls[i].call) <= t.slots[j].greatest
    {
      assert Settled(t.slots, t.calls[i]);
      var low, high := SlotBounds(hash, t, t.calls[i].phase.slot);
    }
    forall j | 0 <= j < |t.slots| && t.slots[j].state >= 2 && sel(t.slots[j].key)
      ensures exists i :: 0 <= i < |t.calls| && t.calls[i].phase.Done? && sel(KeyOf(t.calls[i].call))
                && Timed(t.calls[i].call) && Duration(t.calls[i].call) == t.slots[j].least
      ensures exists i :: 0 <= i < |t.calls| && t.calls[i].phase.Done? && sel(KeyOf(t.calls[i].call))
                && Timed(t.calls[i].call) && Duration(t.calls[i].call) == t.slots[j].greatest
    {
      var low, high := SlotBounds(hash, t, j);
    }
  }

  lemma {:induction false} DurationsBetween(calls: seq<CallState>, j: nat, low: nat, high: nat)
    requires forall i :: 0 <= i < |calls| && Attached(calls[i], j, 3) ==>
               Attached(calls[i], j, 5) && low <= Duration(calls[i].call) <= high
    requires forall i :: 0 <= i < |calls| ==> Timed(calls[i].call)
    ensures low * Sum(Counts(j), calls) <= Sum(Durations(j), calls) <= high * Sum(Counts(j), calls)
  {
    if calls != [] {
      DurationsBetween(calls[1..], j, low, high);
      OneMoreBetween(low, high, Sum(Counts(j), calls[1..]));
    }
  }

  lemma OneMoreBetween(low: nat, high: nat, n: nat)
    ensures low * (n + 1) == low * n + low && high * (n + 1) == high * n + high
  {
  }

  lemma {:induction false} SumPositive(calls: seq<CallState>, j: nat, i: nat)
    requires i < |calls| && Attached(calls[i], j, 5)
    ensures Sum(Counts(j), calls) > 0
  {
    if i > 0 { SumPositive(calls[1..], j, i - 1); }
  }

  /** Every slot a quiescent capture writes has a count, ordered bounds, and a mean duration
      between them. */
  lemma WrittenSlots(hash: Key -> nat, t: Table, j: nat)
    requires Good(hash, t) && Quiescent(t) && j < |t.slots| && t.slots[j].state >= 2
    ensures var s := t.slots[j];
            && s.count > 0 && s.least <= s.greatest
            && s.least * s.count <= s.duration <= s.greatest * s.count
  {
    hide Good, Sum, Quiescent;
    AllSettled(hash, t);
    var low, high := SlotBounds(hash, t, j);
    var s := t.slots[j];
    SlotSums(hash, t, j);
    SumPositive(t.calls, j, low);
    AttachedDone(t.slots, t.calls, j);
    AllTimed(hash, t);
    hide Settled;
    forall i | 0 <= i < |t.calls| && Attached(t.calls[i], j, 3)
      ensures Attached(t.calls[i], j, 5) && s.least <= Duration(t.calls[i].call) <= s.greatest {}
    DurationsBetween(t.calls, j, s.least, s.greatest);
  }

  lemma SlotSums(hash: Key -> nat, t: Table, j: nat)
    requires Good(hash, t) && j < |t.slots| && t.slots[j].state >= 2
    ensures SumsOk(t.slots[j], j, t.calls)
  {
    hide CallOk, CountsOk, OwnersApart, SumsOk;
    assert SlotOk(hash, t.slots[j], j, t.calls);
  }

  lemma AllTimed(hash: Key -> nat, t: Table)
    requires Good(hash, t)
    ensures forall i :: 0 <= i < |t.calls| ==> Timed(t.calls[i].call)
  {
    hide SlotOk, CountsOk, OwnersApart;
    assert forall i :: 0 <= i < |t.calls| ==> CallOk(hash, t.slots, t.calls[i]);
  }

  // The observed count that a capture reports

  /** Adds up the counts of the published slots and the drops; none when the sum wraps, which
      the agent records as an output error. */
  method ObservedRecords(slots: seq<Slot>, dropped: nat) returns (observed: Option<nat>)
    requires dropped < U64
    ensures var total := SlotSum(OfCount, AnyKey, slots, 0) + dropped;
            observed == if total < U64 then Some(total) else None
  {
    var sum := 0;
    for index := 0 to |slots|
      invariant sum + SlotSum(OfCount, AnyKey, slots, index) == SlotSum(OfCount, AnyKey, slots, 0)
      invariant sum < U64
    {
      if slots[index].state >= 2 {
        if U64 - 1 - sum < slots[index].count { return None; }
        sum := sum + slots[index].count;
      }
    }
    if U64 - 1 - sum < dropped { return None; }
    return Some(sum + dropped);
  }

  // Racing inserts

  /** Takes one more step after a run. */
  lemma {:induction false} NextStep(hash: Key -> nat, t: Table, steps: seq<Step>, step: Step) returns (more: seq<Step>)
    requires Legal(hash, t, steps) && Enabled(Run(hash, t, steps), step)
    ensures Legal(hash, t, more) && Run(hash, t, more) == Exec(hash, Run(hash, t, steps), step)
    decreases |steps|
  {
    hide Exec, Enabled;
    if steps == [] {
      more := [step];
      assert more[1..] == [];
    } else {
      var rest := NextStep(hash, Exec(hash, t, steps[0]), steps[1..], step);
      more := [steps[0]] + rest;
      assert more[1..] == rest;
    }
  }

  const BLANK: Slot := Slot(0, Key(0, 0, 0, []), 0, 0, 0, 0, 0)

  ghost function Racing(hash: Key -> nat, c: Call, first: Slot, second: Slot, a: Phase, b: Phase): (t: Table) {
    var j := SlotIndex(hash(KeyOf(c)), 0, 2);
    Table(if j == 0 then [first, second] else [second, first], 0, 0, Active, false, [CallState(c, a), CallState(c, b)])
  }

  lemma TwoProbes(h: nat)
    ensures SlotIndex(h, 0, 2) < 2 && SlotIndex(h, 1, 2) == 1 - SlotIndex(h, 0, 2)
  {
    if SlotIndex(h, 0, 2) == SlotIndex(h, 1, 2) { ProbesDiffer(h, 0, 1, 2); }
  }

  lemma BothProbing(hash: Key -> nat, c: Call) returns (t: Table, steps: seq<Step>)
    requires HashOk(hash) && Timed(c) && c.endNs < U64 && c.bytes < U64
    ensures Reaches(hash, t, 2, steps, Racing(hash, c, BLANK, BLANK, Probing(0), Probing(0)))
  {
    TwoProbes(hash(KeyOf(c)));
    hide SlotIndex;
    t := Table([BLANK, BLANK], 0, 0, Active, false, []);
    steps := NextStep(hash, t, [], Begin(c));
    steps := NextStep(hash, t, steps, Begin(c));
  }

  /** One call has claimed its first slot when the other looks at it, and passes on. */
  lemma Overtaken(hash: Key -> nat, c: Call) returns (t: Table, steps: seq<Step>)
    requires HashOk(hash) && Timed(c) && c.endNs < U64 && c.bytes < U64
    ensures var j := SlotIndex(hash(KeyOf(c)), 0, 2);
      Reaches(hash, t, 2, steps, Racing(hash, c, BLANK.(state := 1), BLANK, Filling(j), Probing(1)))
  {
    var j := SlotIndex(hash(KeyOf(c)), 0, 2);
    t, steps := BothProbing(hash, c);
    TwoProbes(hash(KeyOf(c)));
    hide SlotIndex, Init;
    steps := NextStep(hash, t, steps, Advance(0, false));
    assert Run(hash, t, steps) == Racing(hash, c, BLANK, BLANK, Claiming(0), Probing(0));
    steps := NextStep(hash, t, steps, Advance(0, false));
    assert Run(hash, t, steps) == Racing(hash, c, BLANK.(state := 1), BLANK, Filling(j), Probing(0));
    steps := NextStep(hash, t, steps, Advance(1, false));
  }

  /** The overtaken call claims the next slot. */
  lemma SecondClaimed(hash: Key -> nat, c: Call) returns (t: Table, steps: seq<Step>)
    requires HashOk(hash) && Timed(c) && c.endNs < U64 && c.bytes < U64
    ensures var j := SlotIndex(hash(KeyOf(c)), 0, 2);
      var claimed := BLANK.(state := 1);
      j < 2 && Reaches(hash, t, 2, steps, Racing(hash, c, claimed, claimed, Filling(j), Filling(1 - j)))
  {
    var j := SlotIndex(hash(KeyOf(c)), 0, 2);
    t, steps := Overtaken(hash, c);
    TwoProbes(hash(KeyOf(c)));
    hide SlotIndex, Init;
    steps := NextStep(hash, t, steps, Advance(1, false));
    assert Run(hash, t, steps) == Racing(hash, c, BLANK.(state := 1), BLANK, Filling(j), Claiming(1));
    steps := NextStep(hash, t, steps, Advance(1, false));
  }

  /** And publishes its key there. */
  lemma SecondPublished(hash: Key -> nat, c: Call) returns (t: Table, steps: seq<Step>)
    requires HashOk(hash) && Timed(c) && c.endNs < U64 && c.bytes < U64
    ensures var j := SlotIndex(hash(KeyOf(c)), 0, 2);
      var done := Slot(hash(KeyOf(c)), KeyOf(c), 0, 0, U64 - 1, 0, 0);
      j < 2 && Reaches(hash, t, 2, steps, Racing(hash, c, BLANK.(state := 1), done, Filling(j), Counting(1 - j)))
  {
    var j := SlotIndex(hash(KeyOf(c)), 0, 2);
    t, steps := SecondClaimed(hash, c);
    hide SlotIndex, Init;
    steps := NextStep(hash, t, steps, Advance(1, false));
    assert Run(hash, t, steps)
           == Racing(hash, c, BLANK.(state := 1), Slot(1, KeyOf(c), 0, 0, U64 - 1, 0, 0), Filling(j), Publishing(1 - j));
    steps := NextStep(hash, t, steps, Advance(1, false));
  }

  /** Whatever the hash, two racing calls of one key can publish two slots for it. */
  lemma RacingInsertsDuplicate(hash: Key -> nat, c: Call) returns (t: Table, steps: seq<Step>, t': Table)
    requires HashOk(hash) && Timed(c) && c.endNs < U64 && c.bytes < U64
    ensures Reaches(hash, t, 2, steps, t') && |t'.slots| == 2
    ensures t'.slots[0].state == t'.slots[1].state == hash(KeyOf(c)) && t'.slots[0].key == t'.slots[1].key == KeyOf(c)
  {
    var key := KeyOf(c);
    var j := SlotIndex(hash(key), 0, 2);
    var written := Slot(1, key, 0, 0, U64 - 1, 0, 0);
    var done := written.(state := hash(key));
    t, steps := SecondPublished(hash, c);
    hide SlotIndex, Init;
    steps := NextStep(hash, t, steps, Advance(0, false));
    assert Run(hash, t, steps) == Racing(hash, c, written, done, Publishing(j), Counting(1 - j));
    steps := NextStep(hash, t, steps, Advance(0, false));
    t' := Run(hash, t, steps);
    assert t' == Racing(hash, c, done, done, Counting(j), Counting(1 - j));
  }
}

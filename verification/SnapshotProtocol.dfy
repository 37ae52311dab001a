/** The incremental snapshot protocol.  The agent's control thread serves
    `records[offset..committed)` while producers run; the client decodes the response, checks
    its counters, appends it and moves its offset.

    One step of the system is a producer step, a counter step, or one step of the control
    thread between two of its atomic operations.
 */
module SnapshotProtocol {
  import opened Common
  import opened Sorting
  import opened Utf8
  import opened CaptureStore

  // Decoding

  datatype Error = CounterOverflow | InvalidCounters | InvalidCaptureLength | UnknownRecordKind
    | InvalidTimestamp | InvalidName | InvalidNvtxRecord | WrongOffset | CapacityChanged
    | CountersMovedBackwards

  datatype Result<+T> = Ok(value: T) | Err(error: Error)

  datatype Event = Event(sequence: nat, timestampNs: nat, source: Record)

  datatype Header = Header(state: CaptureState, reason: StopReason, count: nat, capacity: nat,
                           observed: nat, agentDropped: nat, cuptiDropped: nat, unknown: nat,
                           offset: nat, nvtx: bool)

  datatype Response = Response(header: Header, payload: seq<Record>)

  datatype Capture = Capture(offset: nat, state: CaptureState, reason: StopReason, capacity: nat,
                             observed: nat, agentDropped: nat, cuptiDropped: nat, dropped: nat,
                             unknown: nat, events: seq<Event>)

  function RecordError(r: Record, nvtx: bool): (e: Option<Error>) {
    if !(1 <= r.kind <= 8 || (9 <= r.kind <= 10 && nvtx)) then Some(UnknownRecordKind)
    else if r.timestampNs == 0 then Some(InvalidTimestamp)
    else if !IsUtf8(r.name) then Some(InvalidName)
    else if 9 <= r.kind && (!(1 <= r.gridZ <= 2) || r.gridX + r.gridY * 0x1_0000_0000 == 0
                            || r.blockX == 0 || r.blockY > 1) then Some(InvalidNvtxRecord)
    else None
  }

  function FirstError(records: seq<Record>, nvtx: bool): (e: Option<Error>)
    ensures e == None <==> forall i :: 0 <= i < |records| ==> RecordError(records[i], nvtx) == None
  {
    if records == [] then None
    else if RecordError(records[0], nvtx).Some? then RecordError(records[0], nvtx)
    else FirstError(records[1..], nvtx)
  }

  predicate ByTime(a: Record, b: Record) { a.timestampNs <= b.timestampNs }

  function Number(records: seq<Record>, offset: nat): (events: seq<Event>)
    ensures |events| == |records|
    ensures forall i :: 0 <= i < |records| ==>
              events[i] == Event(offset + i, records[i].timestampNs, records[i])
  {
    seq(|records|, i requires 0 <= i < |records| => Event(offset + i, records[i].timestampNs, records[i]))
  }

  /** What a decoded batch holds: the records in stable time order, numbered from the offset. */
  function Batch(records: seq<Record>, offset: nat): (events: seq<Event>) {
    Number(StableSort(ByTime, records), offset)
  }

  /** Decodes every record in order, sorts them, and renumbers them in place. */
  method DecodePayload(records: seq<Record>, offset: nat, nvtx: bool) returns (r: Result<seq<Event>>)
    ensures FirstError(records, nvtx).Some? ==> r == Err(FirstError(records, nvtx).value)
    ensures FirstError(records, nvtx).None? ==> r == Ok(Batch(records, offset))
  {
    hide RecordError;
    var decoded: seq<Record> := [];
    for index := 0 to |records|
      invariant decoded == records[..index]
      invariant FirstError(records, nvtx) == FirstError(records[index..], nvtx)
    {
      var error := RecordError(records[index], nvtx);
      assert records[index..][1..] == records[index + 1..];
      if error.Some? { return Err(error.value); }
      decoded := decoded + [records[index]];
    }
    var sorted := StableSort(ByTime, decoded);
    var events: seq<Event> := [];
    var sequence := offset;
    for index := 0 to |sorted|
      invariant sequence == offset + index
      invariant events == Number(sorted[..index], offset)
    {
      events := events + [Event(sequence, sorted[index].timestampNs, sorted[index])];
      sequence := sequence + 1;
    }
    assert sorted[..|sorted|] == sorted && decoded == records;
    r := Ok(events);
  }

  function Decode(response: Response): (r: Result<Capture>) {
    var h := response.header;
    if h.offset + h.count >= U64 then Err(CounterOverflow)
    else if h.offset + h.count > h.capacity || h.observed < h.offset + h.count then Err(InvalidCounters)
    else if |response.payload| != h.count then Err(InvalidCaptureLength)
    else if FirstError(response.payload, h.nvtx).Some? then Err(FirstError(response.payload, h.nvtx).value)
    else if h.agentDropped + h.cuptiDropped >= U64 then Err(CounterOverflow)
    else Ok(Capture(h.offset, h.state, h.reason, h.capacity, h.observed, h.agentDropped, h.cuptiDropped,
                    h.agentDropped + h.cuptiDropped, h.unknown, Batch(response.payload, h.offset)))
  }

  // The client's accumulation

  datatype Client = Client(offset: nat, latest: Option<Capture>)

  function Append(c: Client, capture: Capture): (r: Result<Client>) {
    if capture.offset != c.offset then Err(WrongOffset)
    else if capture.offset + |capture.events| >= U64 then Err(CounterOverflow)
    else match c.latest
      case None =>
        Ok(Client(capture.offset + |capture.events|, Some(capture.(offset := 0))))
      case Some(a) =>
        if a.capacity != capture.capacity then Err(CapacityChanged)
        else if capture.observed < a.observed || capture.agentDropped < a.agentDropped
                || capture.cuptiDropped < a.cuptiDropped || capture.unknown < a.unknown
        then Err(CountersMovedBackwards)
        else Ok(Client(capture.offset + |capture.events|,
                       Some(capture.(offset := a.offset, events := a.events + capture.events))))
  }

  /** The client's live collection; its fields are updated as captures arrive. */
  class LiveCollection {
    var recordOffset: nat
    var latest: Option<Capture>

    ghost function View(): (c: Client)
      reads this
    {
      Client(recordOffset, latest)
    }

    constructor ()
      ensures View() == Client(0, None)
    {
      recordOffset, latest := 0, None;
    }

    method AppendCudaCapture(capture: Capture) returns (error: Option<Error>)
      modifies this
      ensures error == None <==> Append(old(View()), capture).Ok?
      ensures error == None ==> View() == Append(old(View()), capture).value
      ensures error.Some? ==> View() == old(View()) && error.value == Append(View(), capture).error
    {
      if capture.offset != recordOffset { return Some(WrongOffset); }
      var nextOffset := capture.offset + |capture.events|;
      if nextOffset >= U64 { return Some(CounterOverflow); }
      if latest.Some? {
        var a := latest.value;
        if a.capacity != capture.capacity { return Some(CapacityChanged); }
        if capture.observed < a.observed || capture.agentDropped < a.agentDropped
           || capture.cuptiDropped < a.cuptiDropped || capture.unknown < a.unknown {
          return Some(CountersMovedBackwards);
        }
        a := a.(state := capture.state, reason := capture.reason, observed := capture.observed,
                agentDropped := capture.agentDropped, cuptiDropped := capture.cuptiDropped,
                dropped := capture.dropped, unknown := capture.unknown,
                events := a.events + capture.events);
        latest := Some(a);
      } else {
        latest := Some(capture.(offset := 0));
      }
      recordOffset := nextOffset;
      return None;
    }
  }

  /** Why an accumulated capture may not be measured. */
  datatype Rejection = CaptureFailed | LimitWasReached | NotStopped

  function RejectIncomplete(capture: Capture, requireComplete: bool): (r: Option<Rejection>)
    ensures r == None <==> capture.state.Stopped? || (capture.state.Active? && !requireComplete)
  {
    if capture.state == Idle || capture.state == Failed then Some(CaptureFailed)
    else if capture.state == LimitReached then Some(LimitWasReached)
    else if requireComplete && capture.state != Stopped then Some(NotStopped)
    else None
  }

  // The system

  /** Where the control thread is.  `StopStoring` has seen the capture active. */
  datatype Control =
    | Waiting
    | StopChecking
    | StopStoring
    | StopExplaining
    | LoadingAvailable
    | LoadingObserved(available: nat)
    | LoadingRest(available: nat, observed: nat)
    | Sending(header: Header)
    | OffsetRefused

  /** `cuts`, `quietStop` and `stopServed` are history: the offsets the client has had, whether
      no producer was in flight when a stop found the capture active and none began before the
      stop was stored, and whether such a stop has been answered. */
  datatype System = System(
    store: State,
    nvtx: bool,
    agentDropped: nat,
    cuptiDropped: nat,
    unknown: nat,
    control: Control,
    client: Client,
    rejected: bool,
    cuts: seq<nat>,
    quietStop: bool,
    stopServed: bool)

  datatype Action =
    | Producer(step: Step)
    | Count(agent: nat, cupti: nat, unknown: nat)
    | Request(stop: bool)
    | CheckActive
    | StoreStopped
    | StoreRequested
    | LoadAvailable
    | LoadObserved
    | LoadRest
    | Deliver

  ghost predicate WellFormed(r: Record, nvtx: bool) { RecordError(r, nvtx) == None }

  ghost predicate InitSystem(s: System, capacity: nat) {
    && Init(s.store, capacity) && capacity < U64
    && s.agentDropped == s.cuptiDropped == s.unknown == 0
    && s.control == Waiting && s.client == Client(0, None)
    && !s.rejected && s.cuts == [0] && !s.quietStop && !s.stopServed
  }

  ghost predicate Can(s: System, a: Action) {
    match a
    case Producer(step) =>
      Enabled(s.store, step) && (step.Begin? ==> WellFormed(step.record, s.nvtx))
    case Count(agent, cupti, _) => s.agentDropped + agent + s.cuptiDropped + cupti < U64
    case Request(_) => s.control == Waiting && !s.rejected
    case CheckActive => s.control == StopChecking
    case StoreStopped => s.control == StopStoring
    case StoreRequested => s.control == StopExplaining
    case LoadAvailable => s.control == LoadingAvailable
    case LoadObserved => s.control.LoadingObserved?
    case LoadRest => s.control.LoadingRest? && s.client.offset <= s.control.available
    case Deliver => s.control.Sending? && s.client.offset + s.control.header.count <= |s.store.records|
  }

  /** The client's handling of one response. */
  ghost function Receive(s: System, response: Response): (s': System) {
    match Decode(response)
    case Err(_) => s.(rejected := true, control := Waiting)
    case Ok(capture) =>
      match Append(s.client, capture)
      case Err(_) => s.(rejected := true, control := Waiting)
      case Ok(client) => s.(client := client, cuts := s.cuts + [client.offset],
                            control := Waiting, stopServed := s.stopServed || s.quietStop)
  }

  ghost function Do(s: System, a: Action): (s': System)
    requires Can(s, a)
  {
    match a
    case Producer(step) =>
      var store' := Exec(s.store, step);
      s.(store := store',
         quietStop := s.quietStop && (s.control == StopStoring ==> store'.producers == map[]))
    case Count(agent, cupti, unknown) =>
      s.(agentDropped := s.agentDropped + agent, cuptiDropped := s.cuptiDropped + cupti,
         unknown := s.unknown + unknown)
    case Request(stop) => s.(control := if stop then StopChecking else LoadingAvailable)
    case CheckActive =>
      if s.store.captureState == Active
      then s.(control := StopStoring, quietStop := Quiescent(s.store))
      else s.(control := LoadingAvailable)
    case StoreStopped =>
      s.(store := Exec(s.store, Mark(Stopped, s.store.stopReason)), control := StopExplaining)
    case StoreRequested =>
      s.(store := s.store.(stopReason := Requested), control := LoadingAvailable)
    case LoadAvailable =>
      if s.client.offset > s.store.committed then s.(control := OffsetRefused)
      else s.(control := LoadingObserved(s.store.committed))
    case LoadObserved => s.(control := LoadingRest(s.control.available, s.store.recordCount))
    case LoadRest =>
      s.(control := Sending(Header(s.store.captureState, s.store.stopReason,
                                   s.control.available - s.client.offset, s.store.capacity,
                                   s.control.observed, s.agentDropped, s.cuptiDropped, s.unknown,
                                   s.client.offset, s.nvtx)))
    case Deliver =>
      var h := s.control.header;
      Receive(s, Response(h, s.store.records[s.client.offset..s.client.offset + h.count]))
  }

  ghost predicate Allowed(s: System, actions: seq<Action>)
    decreases |actions|
  {
    actions == [] || (Can(s, actions[0]) && Allowed(Do(s, actions[0]), actions[1..]))
  }

  ghost function Play(s: System, actions: seq<Action>): (s': System)
    requires Allowed(s, actions)
    decreases |actions|
  {
    if actions == [] then s else Play(Do(s, actions[0]), actions[1..])
  }

  // What the client must hold

  ghost predicate Cuts(cuts: seq<nat>, end: nat) {
    && |cuts| > 0 && cuts[0] == 0 && cuts[|cuts| - 1] == end
    && (forall i, j :: 0 <= i < j < |cuts| ==> cuts[i] <= cuts[j])
  }

  /** The batches of the log between consecutive cuts, decoded one after another. */
  ghost function Drained(log: seq<Record>, cuts: seq<nat>): (events: seq<Event>) {
    var n := |cuts| - 1;
    if n <= 0 || !(cuts[n - 1] <= cuts[n] <= |log|) then []
    else Drained(log, cuts[..n]) + Batch(log[cuts[n - 1]..cuts[n]], cuts[n - 1])
  }

  lemma CutsButLast(cuts: seq<nat>)
    requires |cuts| > 1 && Cuts(cuts, cuts[|cuts| - 1])
    ensures Cuts(cuts[..|cuts| - 1], cuts[|cuts| - 2]) && cuts[|cuts| - 2] <= cuts[|cuts| - 1]
  {
  }

  lemma {:induction false} DrainedStable(log: seq<Record>, log': seq<Record>, cuts: seq<nat>)
    requires |cuts| > 0 && Cuts(cuts, cuts[|cuts| - 1]) && cuts[|cuts| - 1] <= |log| && log <= log'
    ensures Drained(log', cuts) == Drained(log, cuts)
  {
    hide Batch;
    var n := |cuts| - 1;
    if n > 0 {
      CutsButLast(cuts);
      DrainedStable(log, log', cuts[..n]);
      assert log'[cuts[n - 1]..cuts[n]] == log[cuts[n - 1]..cuts[n]];
    }
  }

  function Source(e: Event): Record { e.source }

  lemma BatchExact(records: seq<Record>, offset: nat)
    ensures var b := Batch(records, offset);
            && |b| == |records|
            && multiset(Map(Source, b)) == multiset(records)
            && (forall i :: 0 <= i < |b| ==> b[i].sequence == offset + i)
            && (forall i, j :: 0 <= i < j < |b| ==> b[i].timestampNs <= b[j].timestampNs)
  {
    SortPermutes(ByTime, records);
    SortSorts(ByTime, records);
    assert Map(Source, Batch(records, offset)) == StableSort(ByTime, records);
  }

  /** The drained events are the log prefix, each record once, numbered 0, 1, 2, ... */
  lemma {:induction false} DrainedExact(log: seq<Record>, cuts: seq<nat>)
    requires |cuts| > 0 && Cuts(cuts, cuts[|cuts| - 1]) && cuts[|cuts| - 1] <= |log|
    ensures var events := Drained(log, cuts);
            && |events| == cuts[|cuts| - 1]
            && (forall i :: 0 <= i < |events| ==> events[i].sequence == i)
            && multiset(Map(Source, events)) == multiset(log[..|events|])
  {
    hide Batch, Source;
    var n := |cuts| - 1;
    if n > 0 {
      CutsButLast(cuts);
      var before := Drained(log, cuts[..n]);
      var batch := Batch(log[cuts[n - 1]..cuts[n]], cuts[n - 1]);
      DrainedExact(log, cuts[..n]);
      BatchExact(log[cuts[n - 1]..cuts[n]], cuts[n - 1]);
      assert Drained(log, cuts) == before + batch;
      MapConcat(Source, before, batch);
      assert log[..cuts[n]] == log[..cuts[n - 1]] + log[cuts[n - 1]..cuts[n]];
    }
  }

  // The invariant of every run

  ghost predicate RecordsWellFormed(s: System) {
    && (forall r :: r in s.store.log ==> WellFormed(r, s.nvtx))
    && (forall t :: t in s.store.producers && s.store.producers[t].Reserving? ==>
          WellFormed(s.store.producers[t].record, s.nvtx))
  }

  ghost predicate ClientInStep(s: System) {
    && s.client.offset <= s.store.committed && s.client.offset <= |s.store.log|
    && Cuts(s.cuts, s.client.offset)
    && (s.client.latest.None? ==> s.cuts == [0])
    && (s.client.latest.Some? ==>
          var a := s.client.latest.value;
          && a.capacity == s.store.capacity && a.observed <= s.store.recordCount
          && a.agentDropped <= s.agentDropped && a.cuptiDropped <= s.cuptiDropped && a.unknown <= s.unknown
          && a.events == Drained(s.store.log, s.cuts))
  }

  ghost predicate ControlInStep(s: System) {
    match s.control
    case LoadingObserved(available) => s.client.offset <= available <= s.store.committed
    case LoadingRest(available, observed) =>
      && s.client.offset <= available <= s.store.committed
      && available <= observed <= s.store.recordCount
      && (s.client.latest.Some? ==> s.client.latest.value.observed <= observed)
    case Sending(h) =>
      && h.offset == s.client.offset && h.offset + h.count <= s.store.committed
      && h.offset + h.count <= h.observed <= s.store.recordCount
      && h.capacity == s.store.capacity && h.nvtx == s.nvtx
      && h.agentDropped <= s.agentDropped && h.cuptiDropped <= s.cuptiDropped && h.unknown <= s.unknown
      && (s.client.latest.Some? ==>
            var a := s.client.latest.value;
            && a.observed <= h.observed && a.agentDropped <= h.agentDropped
            && a.cuptiDropped <= h.cuptiDropped && a.unknown <= h.unknown)
    case OffsetRefused => false
    case _ => true
  }

  ghost predicate SystemInv(s: System) {
    && Inv(s.store) && s.store.capacity < U64
    && RecordsWellFormed(s)
    && s.agentDropped + s.cuptiDropped < U64
    && ClientInStep(s) && ControlInStep(s)
    && !s.rejected
  }

  lemma InitSystemInv(s: System, capacity: nat)
    requires InitSystem(s, capacity)
    ensures SystemInv(s)
  {
    InitInv(s.store, capacity);
  }

  /** Which records a producer step can add to the log or announce. */
  lemma StepAdds(s: State, step: Step)
    requires Enabled(s, step)
    ensures Exec(s, step).log == s.log
            || (step.Reserve? && Exec(s, step).log == s.log + [s.producers[step.thread].record])
    ensures forall t :: t in Exec(s, step).producers && Exec(s, step).producers[t].Reserving? ==>
              (t in s.producers && Exec(s, step).producers[t] == s.producers[t])
              || (step.Begin? && Exec(s, step).producers[t].record == step.record)
  {
  }

  lemma ProducerRecords(s: System, step: Step)
    requires RecordsWellFormed(s) && Can(s, Producer(step))
    ensures RecordsWellFormed(Do(s, Producer(step)))
  {
    StepAdds(s.store, step);
    hide WellFormed, Exec;
  }

  /** The client and the control thread only rely on the store growing. */
  lemma GrowthKeeps(s: System, s': System)
    requires SystemInv(s) && s' == s.(store := s'.store, quietStop := s'.quietStop)
    requires Inv(s'.store) && Extends(s.store, s'.store)
    ensures ClientInStep(s') && ControlInStep(s')
  {
    hide Inv, Drained;
    if s.client.latest.Some? { DrainedStable(s.store.log, s'.store.log, s.cuts); }
  }

  lemma ProducerKeeps(s: System, step: Step)
    requires SystemInv(s) && Can(s, Producer(step))
    ensures SystemInv(Do(s, Producer(step)))
  {
    ProducerRecords(s, step);
    StepExtends(s.store, step);
    hide Inv, Exec, Enabled;
    GrowthKeeps(s, Do(s, Producer(step)));
  }

  lemma MarkKeeps(s: System, state: CaptureState, reason: StopReason, control: Control)
    requires SystemInv(s) && state != Active
    requires control == StopExplaining || control == LoadingAvailable
    ensures SystemInv(s.(store := Exec(s.store, Mark(state, reason)), control := control))
  {
    StepExtends(s.store, Mark(state, reason));
    var s' := s.(store := Exec(s.store, Mark(state, reason)));
    hide Inv;
    GrowthKeeps(s, s');
  }

  /** Setting only the stop reason is not a state change. */
  lemma ReasonKeeps(s: State, reason: StopReason)
    requires Inv(s)
    ensures Inv(s.(stopReason := reason)) && Extends(s, s.(stopReason := reason))
  {
    var s' := s.(stopReason := reason);
    assert forall t: nat, i: nat :: Holds(s', t, i) == Holds(s, t, i);
    assert forall t: nat :: Helping(s', t) == Helping(s, t) && Limiting(s', t) == Limiting(s, t);
  }

  lemma DrainedNext(log: seq<Record>, cuts: seq<nat>, from: nat, to: nat)
    requires Cuts(cuts, from) && from <= to <= |log|
    ensures Cuts(cuts + [to], to)
    ensures Drained(log, cuts + [to]) == Drained(log, cuts) + Batch(log[from..to], from)
  {
    hide Batch;
    assert (cuts + [to])[..|cuts|] == cuts;
  }

  lemma DrainedFirst(log: seq<Record>, batch: seq<Event>)
    ensures Drained(log, [0]) + batch == batch
  {
  }

  /** What the client becomes after an accepted batch. */
  ghost function Appended(c: Client, h: Header, batch: seq<Event>): (c': Client) {
    var next := Capture(0, h.state, h.reason, h.capacity, h.observed, h.agentDropped, h.cuptiDropped,
                        h.agentDropped + h.cuptiDropped, h.unknown, batch);
    match c.latest
    case None => Client(c.offset + h.count, Some(next))
    case Some(a) => Client(c.offset + h.count, Some(next.(offset := a.offset, events := a.events + batch)))
  }

  /** Counters that only grew and well-formed records pass every check of the client. */
  lemma AcceptHonest(c: Client, h: Header, payload: seq<Record>)
    requires h.offset == c.offset && |payload| == h.count && FirstError(payload, h.nvtx) == None
    requires h.offset + h.count <= h.capacity < U64 && h.offset + h.count <= h.observed
    requires h.agentDropped + h.cuptiDropped < U64
    requires c.latest.Some? ==>
               var a := c.latest.value;
               && a.capacity == h.capacity && a.observed <= h.observed
               && a.agentDropped <= h.agentDropped && a.cuptiDropped <= h.cuptiDropped && a.unknown <= h.unknown
    ensures Decode(Response(h, payload)).Ok?
    ensures Append(c, Decode(Response(h, payload)).value) == Ok(Appended(c, h, Batch(payload, c.offset)))
  {
    hide StableSort, FirstError, RecordError;
    SortPermutes(ByTime, payload);
  }

  ghost function Advanced(s: System, h: Header, batch: seq<Event>): (s': System) {
    s.(client := Appended(s.client, h, batch), cuts := s.cuts + [s.client.offset + h.count],
       control := Waiting, stopServed := s.stopServed || s.quietStop)
  }

  lemma ClientAdvances(s: System, h: Header)
    requires ClientInStep(s) && s.control == Sending(h) && ControlInStep(s)
    requires s.client.offset + h.count <= |s.store.log|
    ensures var from, to := s.client.offset, s.client.offset + h.count;
            ClientInStep(Advanced(s, h, Batch(s.store.log[from..to], from)))
  {
    hide Batch, Drained;
    DrainedNext(s.store.log, s.cuts, s.client.offset, s.client.offset + h.count);
    DrainedFirst(s.store.log, Batch(s.store.log[s.client.offset..s.client.offset + h.count], s.client.offset));
    hide Cuts;
  }

  lemma ReceiveHonest(s: System, h: Header, payload: seq<Record>)
    requires Decode(Response(h, payload)).Ok?
    requires Append(s.client, Decode(Response(h, payload)).value)
             == Ok(Appended(s.client, h, Batch(payload, s.client.offset)))
    ensures Receive(s, Response(h, payload)) == Advanced(s, h, Batch(payload, s.client.offset))
  {
    hide Decode, Append, Batch;
  }

  /** The response extends the client by exactly the next batch of the log. */
  lemma DeliverKeeps(s: System)
    requires SystemInv(s) && Can(s, Deliver)
    ensures SystemInv(Do(s, Deliver))
    ensures var h := s.control.header;
            var from, to := s.client.offset, s.client.offset + h.count;
            to <= |s.store.log| && Do(s, Deliver) == Advanced(s, h, Batch(s.store.log[from..to], from))
  {
    hide Inv, Batch, Drained, Decode, Append, Appended, FirstError, WellFormed, RecordError, Receive;
    var h := s.control.header;
    var from, to := s.client.offset, s.client.offset + h.count;
    var payload := s.store.records[from..to];
    DeliverPayload(s, payload);
    AcceptHonest(s.client, h, payload);
    ReceiveHonest(s, h, payload);
    ClientAdvances(s, h);
  }

  lemma DeliverPayload(s: System, payload: seq<Record>)
    requires SystemInv(s) && Can(s, Deliver)
    requires payload == s.store.records[s.client.offset..s.client.offset + s.control.header.count]
    ensures s.client.offset + s.control.header.count <= |s.store.log|
    ensures s.control.header.offset + s.control.header.count <= s.store.capacity
    ensures payload == s.store.log[s.client.offset..s.client.offset + s.control.header.count]
    ensures FirstError(payload, s.nvtx) == None
  {
    hide RecordError;
    var from := s.client.offset;
    forall i | 0 <= i < |payload|
      ensures payload[i] == s.store.log[from + i] && RecordError(payload[i], s.nvtx) == None
    {
      assert s.store.ready[from + i];
      assert s.store.log[from + i] in s.store.log;
      assert WellFormed(s.store.log[from + i], s.nvtx);
    }
  }

  predicate MovesControl(a: Action) {
    a.Count? || a.Request? || a.CheckActive? || a.LoadAvailable? || a.LoadObserved? || a.LoadRest?
  }

  lemma ControlKeeps(s: System, a: Action)
    requires SystemInv(s) && Can(s, a) && MovesControl(a)
    ensures SystemInv(Do(s, a))
  {
    hide RecordError, WellFormed, Drained, Batch, Inv, Cuts, RecordsWellFormed, Quiescent;
    StoreBounds(s.store);
    SameRecords(s, Do(s, a));
  }

  lemma SameRecords(s: System, s': System)
    requires s'.store == s.store && s'.nvtx == s.nvtx
    ensures RecordsWellFormed(s) ==> RecordsWellFormed(s')
  {
    hide WellFormed;
  }

  lemma ActionKeeps(s: System, a: Action)
    requires SystemInv(s) && Can(s, a)
    ensures SystemInv(Do(s, a))
  {
    if MovesControl(a) {
      hide *;
      ControlKeeps(s, a);
    } else {
      hide RecordError, WellFormed, Drained, Batch, Inv;
      match a
      case Producer(step) => ProducerKeeps(s, step);
      case StoreStopped => MarkKeeps(s, Stopped, s.store.stopReason, StopExplaining);
      case StoreRequested =>
        ReasonKeeps(s.store, Requested);
        GrowthKeeps(s, s.(store := s.store.(stopReason := Requested)));
      case Deliver => DeliverKeeps(s);
    }
  }

  lemma StoreBounds(s: State)
    requires Inv(s)
    ensures s.committed <= s.recordCount == |s.log|
  {
  }

  lemma {:induction false} PlayKeeps(s: System, actions: seq<Action>)
    requires SystemInv(s) && Allowed(s, actions)
    ensures SystemInv(Play(s, actions))
    decreases |actions|
  {
    if actions != [] {
      ActionKeeps(s, actions[0]);
      PlayKeeps(Do(s, actions[0]), actions[1..]);
    }
  }

  /** In every run an honest agent is never rejected, and the client holds the first records
      of the reservation order: no gap, no duplicate, numbered 0, 1, 2, ... */
  lemma HonestAgentAccepted(s: System, capacity: nat, actions: seq<Action>)
    requires InitSystem(s, capacity) && Allowed(s, actions)
    ensures var s' := Play(s, actions);
            && !s'.rejected && s'.control != OffsetRefused
            && s'.client.offset <= s'.store.committed <= |s'.store.log|
            && (s'.client.latest.None? ==> s'.client.offset == 0)
            && (s'.client.latest.Some? ==>
                  var events := s'.client.latest.value.events;
                  && |events| == s'.client.offset
                  && (forall i :: 0 <= i < |events| ==> events[i].sequence == i)
                  && multiset(Map(Source, events)) == multiset(s'.store.log[..|events|]))
  {
    InitSystemInv(s, capacity);
    PlayKeeps(s, actions);
    var s' := Play(s, actions);
    DrainedExact(s'.store.log, s'.cuts);
  }

  // Completeness at stop

  ghost predicate QuietInv(s: System) {
    && (s.store.captureState == Active ==> !s.store.limitStored)
    && (s.quietStop ==>
          && Quiescent(s.store) && s.store.recordCount == s.store.committed
          && (s.control == StopStoring || s.store.captureState != Active)
          && match s.control
             case LoadingObserved(available) => available == s.store.recordCount
             case LoadingRest(available, observed) => available == observed == s.store.recordCount
             case Sending(h) => h.offset + h.count == h.observed == s.store.recordCount
             case _ => true)
    && (s.stopServed ==>
          && s.quietStop && s.store.captureState != Active
          && s.client.offset == s.store.recordCount && s.client.latest.Some?)
  }

  lemma QuietProducer(s: System, step: Step)
    requires SystemInv(s) && QuietInv(s) && Can(s, Producer(step))
    ensures QuietInv(Do(s, Producer(step)))
  {
    assert s.quietStop ==> step.Begin? || step.Mark?;
  }

  lemma QuietAction(s: System, a: Action)
    requires SystemInv(s) && QuietInv(s) && Can(s, a)
    ensures QuietInv(Do(s, a))
  {
    hide RecordError, WellFormed, Drained, Batch;
    match a
    case Producer(step) => QuietProducer(s, step);
    case CheckActive =>
      if Quiescent(s.store) { QuiescentCommitted(s.store); }
      hide Inv;
    case Deliver => DeliverKeeps(s); hide Inv;
    case _ => hide Inv;
  }

  lemma {:induction false} QuietPlay(s: System, actions: seq<Action>)
    requires SystemInv(s) && QuietInv(s) && Allowed(s, actions)
    ensures SystemInv(Play(s, actions)) && QuietInv(Play(s, actions))
    decreases |actions|
  {
    if actions != [] {
      ActionKeeps(s, actions[0]);
      QuietAction(s, actions[0]);
      QuietPlay(Do(s, actions[0]), actions[1..]);
    }
  }

  /** If no producer was in flight from a stop's test of the state to its store, its answer leaves no
      reserved record missing at the client. */
  lemma QuietStopComplete(s: System, capacity: nat, actions: seq<Action>)
    requires InitSystem(s, capacity) && Allowed(s, actions) && Play(s, actions).stopServed
    ensures var s' := Play(s, actions);
            && s'.client.latest.Some?
            && var events := s'.client.latest.value.events;
               multiset(Map(Source, events)) == multiset(s'.store.log)
  {
    InitSystemInv(s, capacity);
    QuietPlay(s, actions);
    HonestAgentAccepted(s, capacity, actions);
    var s' := Play(s, actions);
    assert s'.store.log[..|s'.store.log|] == s'.store.log;
  }

  // Completeness for a stop stored at quiescence

  /** Since a stop was stored with no producer in flight the store stands still, and the control
      thread reads its final counts. */
  ghost predicate Settled(s: System) {
    && Quiescent(s.store) && s.store.captureState != Active && s.control != StopStoring
    && match s.control
       case LoadingObserved(available) => available == s.store.committed
       case LoadingRest(available, observed) => available == s.store.committed && observed == s.store.recordCount
       case Sending(h) => h.offset + h.count == s.store.committed && h.observed == s.store.recordCount
       case _ => true
  }

  /** The client has been served since. */
  ghost predicate Served(s: System) {
    && s.client.offset == s.store.committed
    && s.client.latest.Some? && s.client.latest.value.observed == s.store.recordCount
  }

  /** With no producer in flight and the capture stopped, no producer step changes the counts. */
  lemma SettledProducer(s: System, step: Step)
    requires Settled(s) && Can(s, Producer(step))
    ensures Settled(Do(s, Producer(step)))
    ensures Served(s) ==> Served(Do(s, Producer(step)))
  {
    assert step.Begin? || step.Mark?;
  }

  lemma SettledDeliver(s: System)
    requires SystemInv(s) && Settled(s) && Can(s, Deliver)
    ensures Settled(Do(s, Deliver)) && Served(Do(s, Deliver))
  {
    hide RecordError, WellFormed, Drained, Batch, Inv;
    DeliverKeeps(s);
  }

  lemma SettledAction(s: System, a: Action)
    requires SystemInv(s) && Settled(s) && Can(s, a)
    ensures Settled(Do(s, a)) && (Served(s) || a == Deliver ==> Served(Do(s, a)))
  {
    hide RecordError, WellFormed, Drained, Batch, Inv, SystemInv;
    match a
    case Producer(step) => SettledProducer(s, step);
    case Deliver => SettledDeliver(s);
    case _ =>
  }

  lemma {:induction false} SettledPlay(s: System, actions: seq<Action>)
    requires SystemInv(s) && Settled(s) && Allowed(s, actions)
    ensures var s' := Play(s, actions);
            SystemInv(s') && Settled(s') && (Served(s) || Deliver in actions ==> Served(s'))
    decreases |actions|
  {
    hide SystemInv, Settled, Served, Can, Do;
    if actions != [] {
      ActionKeeps(s, actions[0]);
      SettledAction(s, actions[0]);
      SettledPlay(Do(s, actions[0]), actions[1..]);
    }
  }

  lemma StopSettles(s: System)
    requires SystemInv(s) && Can(s, StoreStopped) && Quiescent(s.store)
    ensures Settled(Do(s, StoreStopped))
  {
  }

  lemma {:induction false} CapacityStays(s: System, actions: seq<Action>)
    requires SystemInv(s) && Allowed(s, actions)
    ensures Play(s, actions).store.capacity == s.store.capacity
    decreases |actions|
  {
    hide SystemInv, Can;
    if actions != [] {
      ActionKeeps(s, actions[0]);
      assert Do(s, actions[0]).store.capacity == s.store.capacity by { ActionCapacity(s, actions[0]); }
      CapacityStays(Do(s, actions[0]), actions[1..]);
    }
  }

  lemma ReceiveStore(s: System, response: Response)
    ensures Receive(s, response).store == s.store
  {
    hide Decode, Append;
  }

  lemma ActionCapacity(s: System, a: Action)
    requires Can(s, a)
    ensures Do(s, a).store.capacity == s.store.capacity
  {
    hide WellFormed, Receive;
    if a.Deliver? {
      var h := s.control.header;
      ReceiveStore(s, Response(h, s.store.records[s.client.offset..s.client.offset + h.count]));
    }
  }

  /** What a stop leaves: if no producer is in flight when it is stored, the next answer holds the first
      `capacity` reserved records, its observed count is the number of reserved records, and none is
      missing if and only if that count is at most the capacity; both are in the header. */
  lemma StopCompleteIff(s: System, capacity: nat, before: seq<Action>, after: seq<Action>)
    requires InitSystem(s, capacity) && Allowed(s, before)
    requires Can(Play(s, before), StoreStopped) && Quiescent(Play(s, before).store)
    requires Allowed(Do(Play(s, before), StoreStopped), after) && Deliver in after
    ensures var s' := Play(Do(Play(s, before), StoreStopped), after);
            && s'.client.latest.Some?
            && var a := s'.client.latest.value;
            && a.observed == |s'.store.log| && a.capacity == capacity
            && multiset(Map(Source, a.events)) == multiset(s'.store.log[..Min(|s'.store.log|, capacity)])
            && (multiset(Map(Source, a.events)) == multiset(s'.store.log) <==> a.observed <= a.capacity)
  {
    InitSystemInv(s, capacity);
    PlayKeeps(s, before);
    CapacityStays(s, before);
    var m := Play(s, before);
    ActionKeeps(m, StoreStopped);
    StopSettles(m);
    ActionCapacity(m, StoreStopped);
    SettledPlay(Do(m, StoreStopped), after);
    CapacityStays(Do(m, StoreStopped), after);
    ServedHolds(Play(Do(m, StoreStopped), after));
  }

  lemma ServedHolds(s: System)
    requires SystemInv(s) && Settled(s) && Served(s)
    ensures var a := s.client.latest.value;
            && a.observed == |s.store.log| && a.capacity == s.store.capacity
            && multiset(Map(Source, a.events)) == multiset(s.store.log[..Min(|s.store.log|, a.capacity)])
            && (multiset(Map(Source, a.events)) == multiset(s.store.log) <==> a.observed <= a.capacity)
  {
    hide RecordError, WellFormed, Drained, Batch;
    QuiescentCommitted(s.store);
    StoreBounds(s.store);
    DrainedExact(s.store.log, s.cuts);
    var events := s.client.latest.value.events;
    assert |multiset(Map(Source, events))| == |events|;
    assert |multiset(s.store.log)| == |s.store.log|;
    assert s.store.log[..|s.store.log|] == s.store.log;
  }

  // A stop can hide the record limit

  /** Takes one more action after a run. */
  lemma {:induction false} Next(s: System, actions: seq<Action>, a: Action) returns (more: seq<Action>)
    requires Allowed(s, actions) && Can(Play(s, actions), a)
    ensures Allowed(s, more) && Play(s, more) == Do(Play(s, actions), a)
    decreases |actions|
  {
    if actions == [] {
      more := [a];
      assert more[1..] == [];
    } else {
      var rest := Next(Do(s, actions[0]), actions[1..], a);
      more := [actions[0]] + rest;
      assert more[1..] == rest;
    }
  }

  ghost const SAMPLE: Record := Record(1, 1, 1, 1, 0, 0, 0, 0, 0, [], [])

  /** A run up to a state whose store is `store`; nothing was requested yet. */
  ghost predicate Reached(s: System, run: seq<Action>, store: State) {
    && InitSystem(s, 1) && Allowed(s, run)
    && Play(s, run) == System(store, false, 0, 0, 0, Waiting, Client(0, None), false, [0], false, false)
  }

  lemma ReserveFirst() returns (s: System, run: seq<Action>)
    ensures Reached(s, run, State(1, 1, 0, [SAMPLE], [false], Active, NoReason, map[0 := Copying(SAMPLE, 0)],
                                  [SAMPLE], false))
  {
    s := System(State(1, 0, 0, [SAMPLE], [false], Active, NoReason, map[], [], false), false, 0, 0, 0,
                Waiting, Client(0, None), false, [0], false, false);
    run := Next(s, [], Producer(Begin(0, SAMPLE, true)));
    run := Next(s, run, Producer(Reserve(0)));
  }

  lemma PublishFirst() returns (s: System, run: seq<Action>)
    ensures Reached(s, run, State(1, 1, 0, [SAMPLE], [true], Active, NoReason, map[0 := Loading],
                                  [SAMPLE], false))
  {
    s, run := ReserveFirst();
    run := Next(s, run, Producer(CopyDone(0)));
    run := Next(s, run, Producer(Publish(0)));
  }

  /** The only slot is filled by producer 0, and producer 1 has found the capture active. */
  lemma FillOneSlot() returns (s: System, run: seq<Action>)
    ensures Reached(s, run, State(1, 1, 1, [SAMPLE], [true], Active, NoReason,
                                  map[1 := Reserving(SAMPLE)], [SAMPLE], false))
  {
    s, run := PublishFirst();
    run := Next(s, run, Producer(LoadCommitted(0)));
    run := Next(s, run, Producer(CheckReady(0)));
    run := Next(s, run, Producer(Swap(0, false)));
    run := Next(s, run, Producer(CheckReady(0)));
    assert Play(s, run).store.producers == map[];
    run := Next(s, run, Producer(Begin(1, SAMPLE, true)));
  }

  ghost const OVERRUN: State :=
    State(1, 2, 1, [SAMPLE], [true], Stopped, Requested, map[], [SAMPLE, SAMPLE], true)

  /** Producer 1 stores the limit after the stop's test has found the capture active. */
  lemma LimitAfterTest() returns (s: System, run: seq<Action>)
    ensures InitSystem(s, 1) && Allowed(s, run)
    ensures Play(s, run) == System(OVERRUN.(captureState := LimitReached, stopReason := RecordLimit), false,
                                   0, 0, 0, StopStoring, Client(0, None), false, [0], false, false)
  {
    s, run := FillOneSlot();
    run := Next(s, run, Request(true));
    run := Next(s, run, CheckActive);
    run := Next(s, run, Producer(Reserve(1)));
    run := Next(s, run, Producer(StoreReason(1)));
    run := Next(s, run, Producer(StoreLimit(1)));
    assert Play(s, run).store.producers == map[];
  }

  /** The stop's store then overwrites the limit. */
  lemma OverwriteLimit() returns (s: System, run: seq<Action>)
    ensures InitSystem(s, 1) && Allowed(s, run)
    ensures Play(s, run) == System(OVERRUN, false, 0, 0, 0, LoadingAvailable, Client(0, None),
                                   false, [0], false, false)
  {
    s, run := LimitAfterTest();
    run := Next(s, run, StoreStopped);
    run := Next(s, run, StoreRequested);
  }

  /** The client then accepts a stopped capture although a reserved record is missing and no
      producer is in flight any more. */
  lemma StopHidesLimit() returns (s: System, run: seq<Action>)
    ensures InitSystem(s, 1) && Allowed(s, run)
    ensures var s' := Play(s, run);
            && !s'.rejected && s'.client.latest.Some?
            && RejectIncomplete(s'.client.latest.value, true) == None
            && Quiescent(s'.store) && |s'.store.log| == 2 && s'.client.offset == 1
  {
    s, run := OverwriteLimit();
    run := Next(s, run, LoadAvailable);
    run := Next(s, run, LoadObserved);
    run := Next(s, run, LoadRest);
    var h := Header(Stopped, Requested, 1, 1, 2, 0, 0, 0, 0, false);
    assert OVERRUN.records[0..1] == [SAMPLE];
    assert RecordError(SAMPLE, false) == None;
    hide RecordError;
    AcceptHonest(Client(0, None), h, [SAMPLE]);
    ReceiveHonest(Play(s, run), h, [SAMPLE]);
    run := Next(s, run, Deliver);
  }

  /** Producer 0 has found the capture active, and so has a stop. */
  lemma StopMeetsProducer() returns (s: System, run: seq<Action>)
    ensures InitSystem(s, 1) && Allowed(s, run)
    ensures Play(s, run) == System(State(1, 0, 0, [SAMPLE], [false], Active, NoReason, map[0 := Reserving(SAMPLE)],
                                         [], false),
                                   false, 0, 0, 0, StopStoring, Client(0, None), false, [0], false, false)
  {
    s := System(State(1, 0, 0, [SAMPLE], [false], Active, NoReason, map[], [], false), false, 0, 0, 0,
                Waiting, Client(0, None), false, [0], false, false);
    run := Next(s, [], Producer(Begin(0, SAMPLE, true)));
    run := Next(s, run, Request(true));
    run := Next(s, run, CheckActive);
  }

  /** The stop is stored before the producer reserves. */
  lemma StopBeforeReserve() returns (s: System, run: seq<Action>)
    ensures InitSystem(s, 1) && Allowed(s, run)
    ensures Play(s, run) == System(LATE, false, 0, 0, 0, LoadingAvailable, Client(0, None), false, [0], false, false)
  {
    s, run := StopMeetsProducer();
    hide InitSystem, WellFormed;
    run := Next(s, run, StoreStopped);
    run := Next(s, run, StoreRequested);
  }

  ghost const EMPTY: Header := Header(Stopped, Requested, 0, 1, 0, 0, 0, 0, 0, false)

  ghost const LATE: State :=
    State(1, 0, 0, [SAMPLE], [false], Stopped, Requested, map[0 := Reserving(SAMPLE)], [], false)

  lemma StopAnswering() returns (s: System, run: seq<Action>)
    ensures InitSystem(s, 1) && Allowed(s, run)
    ensures Play(s, run) == System(LATE, false, 0, 0, 0, Sending(EMPTY), Client(0, None), false, [0], false, false)
  {
    s, run := StopBeforeReserve();
    hide InitSystem, WellFormed;
    run := Next(s, run, LoadAvailable);
    run := Next(s, run, LoadObserved);
    run := Next(s, run, LoadRest);
  }

  lemma StopAnswered() returns (s: System, run: seq<Action>)
    ensures InitSystem(s, 1) && Allowed(s, run)
    ensures Play(s, run)
            == System(LATE, false, 0, 0, 0, Waiting, Appended(Client(0, None), EMPTY, Batch([], 0)), false, [0, 0], false, false)
  {
    s, run := StopAnswering();
    hide InitSystem, WellFormed, RecordError, Batch;
    AcceptHonest(Client(0, None), EMPTY, []);
    ReceiveHonest(Play(s, run), EMPTY, []);
    assert LATE.records[0..0] == [];
    run := Next(s, run, Deliver);
  }

  /** With a producer in flight at the store the counts say nothing: it reserves after the answer. */
  lemma LateProducerMissed() returns (s: System, run: seq<Action>)
    ensures InitSystem(s, 1) && Allowed(s, run)
    ensures var s' := Play(s, run);
            && s'.client.latest.Some?
            && var a := s'.client.latest.value;
            && RejectIncomplete(a, true) == None
            && a.observed == s'.client.offset <= a.capacity && |s'.store.log| == s'.client.offset + 1
  {
    s, run := StopAnswered();
    hide InitSystem, WellFormed, Batch;
    run := Next(s, run, Producer(Reserve(0)));
  }
}

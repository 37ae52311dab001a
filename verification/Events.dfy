/** The correlator's events, pairs and outcomes. */
module Events {
  import opened Common
  import opened Sorting

  datatype Cuda = Cuda(device: Option<nat>, context: Option<nat>, stream: Option<nat>, correlation: Option<nat>)

  datatype Nvtx = Nvtx(kind: nat, id: nat)

  datatype Event = Event(pid: nat, tid: nat, processStart: Option<nat>, timestampNs: nat, sequence: nat,
                         cuda: Option<Cuda>, nvtx: Option<Nvtx>)

  datatype Pair = Pair(start: Event, end: Event, latencyNs: nat)

  function Matched(start: Event, end: Event): (p: Pair)
    requires start.timestampNs <= end.timestampNs
  {
    Pair(start, end, end.timestampNs - start.timestampNs)
  }

  function StartOf(): Pair -> Event { (p: Pair) => p.start }

  function EndOf(): Pair -> Event { (p: Pair) => p.end }

  /** Every event of `starts` is the start of at most one pair, and every event of `ends` the end of at most one. */
  ghost predicate UsesOnce(pairs: seq<Pair>, starts: seq<Event>, ends: seq<Event>) {
    multiset(Map(StartOf(), pairs)) <= multiset(starts) && multiset(Map(EndOf(), pairs)) <= multiset(ends)
  }

  lemma NoUses(starts: seq<Event>, ends: seq<Event>)
    ensures UsesOnce([], starts, ends)
  {
  }

  lemma UsesMore(p: Pair, pairs: seq<Pair>, starts: seq<Event>, ends: seq<Event>)
    requires UsesOnce(pairs, starts, ends)
    ensures UsesOnce([p] + pairs, [p.start] + starts, [p.end] + ends)
  {
    MapFront(StartOf(), p, pairs);
    MapFront(EndOf(), p, pairs);
  }

  lemma UsesLess(pairs: seq<Pair>, starts: seq<Event>, ends: seq<Event>, s: Event, e: Event)
    requires UsesOnce(pairs, starts, ends)
    ensures UsesOnce(pairs, [s] + starts, ends) && UsesOnce(pairs, starts, [e] + ends)
    ensures UsesOnce(pairs, [s] + starts, [e] + ends)
  {
  }

  datatype Outcome = Outcome(pairs: seq<Pair>, unmatchedStart: nat, unmatchedEnd: nat, ambiguous: nat)

  predicate ByTime(a: Event, b: Event) { a.timestampNs <= b.timestampNs }

  predicate ByStart(a: Pair, b: Pair) { a.start.timestampNs <= b.start.timestampNs }

  /** The sample limit. */
  function Limited(pairs: seq<Pair>, limit: Option<nat>): (r: seq<Pair>) {
    if limit.Some? && limit.value < |pairs| then pairs[..limit.value] else pairs
  }

  // Keys, as tuples of numbers in the order of the source's ordered maps

  type Key = seq<nat>

  /** `(pid, tid)` */
  function StackKey(e: Event): (k: Option<Key>) { Some([e.pid, e.tid]) }

  /** `(pid, tid, process start time)` */
  function ThreadKey(e: Event): (k: Option<Key>) {
    Some(if e.processStart.None? then [e.pid, e.tid, 0] else [e.pid, e.tid, 1, e.processStart.value])
  }

  /** `(pid, device, context, stream)`, if all are known */
  function StreamKey(e: Event): (k: Option<Key>) {
    match e.cuda
    case Some(Cuda(Some(device), Some(context), Some(stream), _)) => Some([e.pid, device, context, stream])
    case _ => None
  }

  /** The NVTX range, or else the CUDA context and correlation */
  function CorrelationKey(e: Event): (k: Option<Key>) {
    if e.nvtx.Some? then Some([1, e.pid, e.nvtx.value.kind, e.nvtx.value.id])
    else match e.cuda
      case Some(Cuda(_, Some(context), _, Some(correlation))) => Some([0, e.pid, context, correlation])
      case _ => None
  }

  // What it means to share a key

  lemma SameStack(a: Event, b: Event)
    ensures StackKey(a) == StackKey(b) <==> a.pid == b.pid && a.tid == b.tid
  {
    assert StackKey(a).value[0] == a.pid && StackKey(a).value[1] == a.tid;
  }

  lemma SameThread(a: Event, b: Event)
    ensures ThreadKey(a) == ThreadKey(b) <==> a.pid == b.pid && a.tid == b.tid && a.processStart == b.processStart
  {
    var x, y := ThreadKey(a).value, ThreadKey(b).value;
    assert x[0] == a.pid && x[1] == a.tid && y[0] == b.pid && y[1] == b.tid;
    assert a.processStart.Some? ==> x[3] == a.processStart.value;
    assert b.processStart.Some? ==> y[3] == b.processStart.value;
  }

  /** Both events have a known device, context and stream, and they agree. */
  predicate OnOneStream(a: Event, b: Event) {
    && a.cuda.Some? && b.cuda.Some? && a.pid == b.pid
    && a.cuda.value.device.Some? && a.cuda.value.device == b.cuda.value.device
    && a.cuda.value.context.Some? && a.cuda.value.context == b.cuda.value.context
    && a.cuda.value.stream.Some? && a.cuda.value.stream == b.cuda.value.stream
  }

  lemma SameStream(a: Event, b: Event)
    ensures StreamKey(a).Some? && StreamKey(a) == StreamKey(b) <==> OnOneStream(a, b)
  {
    if StreamKey(a).Some? && StreamKey(a) == StreamKey(b) {
      var x, y := StreamKey(a).value, StreamKey(b).value;
      assert x[0] == y[0] && x[1] == y[1] && x[2] == y[2] && x[3] == y[3];
    }
  }

  /** Both events name one NVTX range, or neither names a range and both name one CUDA correlation. */
  predicate OfOneActivity(a: Event, b: Event) {
    && a.pid == b.pid && a.nvtx == b.nvtx
    && (a.nvtx.None? ==>
          && a.cuda.Some? && b.cuda.Some?
          && a.cuda.value.context.Some? && a.cuda.value.context == b.cuda.value.context
          && a.cuda.value.correlation.Some? && a.cuda.value.correlation == b.cuda.value.correlation)
  }

  lemma SameCorrelation(a: Event, b: Event)
    ensures CorrelationKey(a).Some? && CorrelationKey(a) == CorrelationKey(b) <==> OfOneActivity(a, b)
  {
    if CorrelationKey(a).Some? && CorrelationKey(a) == CorrelationKey(b) {
      var x, y := CorrelationKey(a).value, CorrelationKey(b).value;
      assert x[0] == y[0] && x[1] == y[1] && x[2] == y[2] && x[3] == y[3];
    }
  }

  // The duration window

  function Within(t: nat): Event -> bool { (e: Event) => e.timestampNs <= t }

  function EndsWithin(t: nat): Pair -> bool { (p: Pair) => p.end.timestampNs <= t }

  datatype WindowError = DurationTooLong | WindowOverflows

  datatype Window = Everything | Until(t: nat) | Invalid(error: WindowError)

  /** The window of a duration given in nanoseconds, counted from the first event. */
  function WindowOf(starts: seq<Event>, ends: seq<Event>, duration: Option<nat>): (w: Window) {
    if duration.None? || (starts == [] && ends == []) then Everything
    else if duration.value >= U64 then Invalid(DurationTooLong)
    else
      var first := if starts == [] then ends[0].timestampNs
                   else if ends == [] then starts[0].timestampNs
                   else Min(starts[0].timestampNs, ends[0].timestampNs);
      if first + duration.value >= U64 then Invalid(WindowOverflows) else Until(first + duration.value)
  }

  /** For lists in time order, the window ends the duration after the earliest event; it is invalid when that
      does not fit 64 bits. */
  lemma WindowMeans(starts: seq<Event>, ends: seq<Event>, duration: nat)
    requires Sorted(ByTime, starts) && Sorted(ByTime, ends) && (starts != [] || ends != [])
    ensures var w := WindowOf(starts, ends, Some(duration));
      && (w == Invalid(DurationTooLong) <==> duration >= U64)
      && (w == Invalid(WindowOverflows)
          <==> duration < U64 && forall e :: e in starts || e in ends ==> e.timestampNs + duration >= U64)
      && (w.Until? ==>
            && (exists e :: (e in starts || e in ends) && w.t == e.timestampNs + duration)
            && forall e :: e in starts || e in ends ==> w.t <= e.timestampNs + duration)
      && w != Everything
  {
    forall e | e in starts ensures starts != [] && starts[0].timestampNs <= e.timestampNs { EarliestFirst(starts, e); }
    forall e | e in ends ensures ends != [] && ends[0].timestampNs <= e.timestampNs { EarliestFirst(ends, e); }
    assert starts != [] ==> starts[0] in starts;
    assert ends != [] ==> ends[0] in ends;
  }

  lemma EarliestFirst(events: seq<Event>, e: Event)
    requires Sorted(ByTime, events) && e in events
    ensures events[0].timestampNs <= e.timestampNs
  {
    var i :| 0 <= i < |events| && events[i] == e;
    assert i > 0 ==> ByTime(events[0], events[i]);
  }

  /** In a list sorted by time, the events inside a window are a prefix. */
  lemma {:induction false} WindowIsPrefix(events: seq<Event>, t: nat) returns (n: nat)
    requires Sorted(ByTime, events)
    ensures n <= |events| && Filter(Within(t), events) == events[..n]
    ensures forall i :: 0 <= i < n ==> events[i].timestampNs <= t
    ensures forall i :: n <= i < |events| ==> events[i].timestampNs > t
  {
    if events == [] || events[0].timestampNs > t {
      n := 0;
      assert forall e :: e in events ==> !Within(t)(e);
      FilterNone(Within(t), events);
    } else {
      var k := WindowIsPrefix(events[1..], t);
      n := k + 1;
      assert events[..n] == [events[0]] + events[1..][..k];
      assert forall i :: 1 <= i < |events| ==> events[i] == events[1..][i - 1];
    }
  }
}

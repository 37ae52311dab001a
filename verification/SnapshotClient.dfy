/** What the client's checks ensure, whatever the agent sends. */
module SnapshotClient {
  import opened Common
  import opened Sorting
  import opened Utf8
  import opened CaptureStore
  import opened SnapshotProtocol

  /** The checks on one response, as one condition. */
  ghost predicate Acceptable(c: Client, response: Response) {
    var h := response.header;
    && h.offset == c.offset && |response.payload| == h.count
    && h.offset + h.count < U64 && h.offset + h.count <= h.capacity && h.offset + h.count <= h.observed
    && h.agentDropped + h.cuptiDropped < U64
    && (forall i :: 0 <= i < h.count ==> RecordError(response.payload[i], h.nvtx) == None)
    && (c.latest.Some? ==>
          var a := c.latest.value;
          && a.capacity == h.capacity && a.observed <= h.observed && a.agentDropped <= h.agentDropped
          && a.cuptiDropped <= h.cuptiDropped && a.unknown <= h.unknown)
  }

  lemma DecodedOf(response: Response)
    requires Decode(response).Ok?
    ensures var capture, h := Decode(response).value, response.header;
      && capture.offset == h.offset && capture.state == h.state && capture.reason == h.reason
      && capture.capacity == h.capacity && capture.observed == h.observed
      && capture.agentDropped == h.agentDropped && capture.cuptiDropped == h.cuptiDropped
      && capture.unknown == h.unknown && capture.dropped == h.agentDropped + h.cuptiDropped
      && |capture.events| == |response.payload|
      && capture.events == Batch(response.payload, h.offset)
  {
    hide FirstError, RecordError, StableSort;
    SortPermutes(ByTime, response.payload);
  }

  /** A response is decoded and appended if and only if it passes every check: it continues where the client is, its
      counters fit and have not moved backwards, and its records are well formed. */
  lemma AcceptedIff(c: Client, response: Response)
    ensures Decode(response).Ok? && Append(c, Decode(response).value).Ok? <==> Acceptable(c, response)
  {
    hide RecordError, Batch, FirstError;
    if Decode(response).Ok? { DecodedOf(response); }
    assert FirstError(response.payload, response.header.nvtx) == None
           <==> forall i :: 0 <= i < |response.payload| ==> RecordError(response.payload[i], response.header.nvtx) == None;
  }

  /** What a well-formed record is: a known kind, a timestamp, a UTF-8 name, and for a range a scope, an identifier, a
      thread and a completeness flag. */
  lemma WellFormedMeans(r: Record, nvtx: bool)
    ensures RecordError(r, nvtx) == None
            <==> && 1 <= r.kind <= (if nvtx then 10 else 8) && r.timestampNs > 0 && IsUtf8(r.name)
                 && (r.kind == 9 || r.kind == 10 ==>
                       && (r.gridZ == 1 || r.gridZ == 2) && (r.gridX != 0 || r.gridY != 0)
                       && r.blockX != 0 && (r.blockY == 0 || r.blockY == 1))
  {
    hide IsUtf8;
  }

  /** What the client holds: records numbered from zero without a gap, within the capacity and the observed count. */
  ghost predicate Sound(c: Client) {
    if c.latest.None? then c.offset == 0
    else
      var a := c.latest.value;
      && a.offset == 0 && |a.events| == c.offset < U64 && c.offset <= a.capacity && c.offset <= a.observed
      && a.dropped == a.agentDropped + a.cuptiDropped < U64
      && forall i :: 0 <= i < |a.events| ==> Numbered(a.events[i], i)
  }

  ghost predicate Numbered(e: Event, i: nat) {
    e.sequence == i && e.timestampNs == e.source.timestampNs && RecordError(e.source, true) == None
  }

  lemma RecordSound(r: Record, nvtx: bool)
    requires RecordError(r, nvtx) == None
    ensures RecordError(r, true) == None
  {
    hide IsUtf8;
  }

  lemma BatchNumbered(payload: seq<Record>, offset: nat, nvtx: bool, i: nat)
    requires i < |Batch(payload, offset)| && FirstError(payload, nvtx) == None
    ensures Numbered(Batch(payload, offset)[i], offset + i)
  {
    hide StableSort, RecordError;
    SortPermutes(ByTime, payload);
    var sorted := StableSort(ByTime, payload);
    assert sorted[i] in multiset(sorted);
    var j :| 0 <= j < |payload| && payload[j] == sorted[i];
    RecordSound(payload[j], nvtx);
  }

  /** Whatever response is accepted, the client stays sound, its counters do not decrease, and it reports the
      response's state. */
  lemma AcceptedSound(c: Client, response: Response)
    requires Sound(c) && Decode(response).Ok? && Append(c, Decode(response).value).Ok?
    ensures var c' := Append(c, Decode(response).value).value;
      && Sound(c') && c'.latest.Some? && c'.offset == c.offset + |response.payload|
      && c'.latest.value.state == response.header.state && c'.latest.value.reason == response.header.reason
      && c'.latest.value.observed == response.header.observed
      && (c.latest.Some? ==> c.latest.value.events <= c'.latest.value.events
                             && c.latest.value.observed <= c'.latest.value.observed)
  {
    AcceptedIff(c, response);
    DecodedOf(response);
    hide Batch, RecordError, Numbered, FirstError;
    var h, batch := response.header, Batch(response.payload, response.header.offset);
    forall i | 0 <= i < |batch| ensures Numbered(batch[i], h.offset + i) {
      BatchNumbered(response.payload, h.offset, h.nvtx, i);
    }
  }

  /** What the client holds after a list of responses; a refused one changes nothing. */
  function Collected(responses: seq<Response>): (c: Client) {
    if responses == [] then Client(0, None)
    else
      var c, last := Collected(responses[..|responses| - 1]), responses[|responses| - 1];
      if Decode(last).Ok? && Append(c, Decode(last).value).Ok? then Append(c, Decode(last).value).value else c
  }

  /** Whatever an agent sends, what the client has collected is sound. */
  lemma {:induction false} CollectedSound(responses: seq<Response>)
    ensures Sound(Collected(responses))
  {
    hide Sound, Decode, Append;
    if responses == [] {
      assert Sound(Client(0, None)) by { NothingCollected(); }
    } else {
      var c, last := Collected(responses[..|responses| - 1]), responses[|responses| - 1];
      CollectedSound(responses[..|responses| - 1]);
      if Decode(last).Ok? && Append(c, Decode(last).value).Ok? { AcceptedSound(c, last); }
    }
  }

  lemma NothingCollected()
    ensures Sound(Client(0, None))
  {
  }
}

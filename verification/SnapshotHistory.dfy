/** What the client is told, read off the list of actions of a run: each answer is a snapshot of the agent at
    the actions that loaded it, and the capture state it reports is the last one that was stored before.
 */
module SnapshotHistory {
  import opened Common
  import opened CaptureStore
  import opened SnapshotProtocol

  // Runs, one action at a time

  lemma {:induction false} PlaySnoc(s: System, actions: seq<Action>, a: Action)
    ensures Allowed(s, actions + [a]) <==> Allowed(s, actions) && Can(Play(s, actions), a)
    ensures Allowed(s, actions + [a]) ==> Play(s, actions + [a]) == Do(Play(s, actions), a)
    decreases |actions|
  {
    hide Can, Do;
    if actions == [] {
      assert ([] + [a])[1..] == [] && ([] + [a])[0] == a;
    } else {
      assert (actions + [a])[1..] == actions[1..] + [a];
      if Can(s, actions[0]) { PlaySnoc(Do(s, actions[0]), actions[1..], a); }
    }
  }

  lemma {:induction false} AllowedPrefix(s: System, actions: seq<Action>, k: nat)
    requires Allowed(s, actions) && k <= |actions|
    ensures Allowed(s, actions[..k])
    decreases |actions| - k
  {
    if k < |actions| {
      AllowedPrefix(s, actions, k + 1);
      assert actions[..k + 1] == actions[..k] + [actions[k]];
      PlaySnoc(s, actions[..k], actions[k]);
    } else {
      assert actions[..k] == actions;
    }
  }

  /** The state of the run before action `k`. */
  ghost function At(s: System, actions: seq<Action>, k: nat): (s': System)
    requires Allowed(s, actions) && k <= |actions|
  {
    AllowedPrefix(s, actions, k);
    Play(s, actions[..k])
  }

  lemma AtPrefix(s: System, actions: seq<Action>, a: Action, k: nat)
    requires Allowed(s, actions + [a]) && k <= |actions|
    ensures Allowed(s, actions) && At(s, actions + [a], k) == At(s, actions, k)
  {
    PlaySnoc(s, actions, a);
    assert (actions + [a])[..k] == actions[..k];
  }

  // What was stored last

  /** The capture state that an action stores. */
  function StateOf(a: Action): (state: Option<CaptureState>) {
    match a
    case StoreStopped => Some(Stopped)
    case Producer(StoreLimit(_)) => Some(LimitReached)
    case Producer(Mark(state, _)) => Some(state)
    case _ => None
  }

  /** The stop reason that an action stores. */
  function ReasonOf(a: Action): (reason: Option<StopReason>) {
    match a
    case StoreRequested => Some(Requested)
    case Producer(StoreReason(_)) => Some(RecordLimit)
    case Producer(Mark(_, reason)) => Some(reason)
    case _ => None
  }

  function LastState(actions: seq<Action>): (state: CaptureState) {
    if actions == [] then Active
    else
      var n := |actions| - 1;
      if StateOf(actions[n]).Some? then StateOf(actions[n]).value else LastState(actions[..n])
  }

  function LastReason(actions: seq<Action>): (reason: StopReason) {
    if actions == [] then NoReason
    else
      var n := |actions| - 1;
      if ReasonOf(actions[n]).Some? then ReasonOf(actions[n]).value else LastReason(actions[..n])
  }

  /** The records that the actions counted as dropped by the agent, dropped by CUPTI, and unknown. */
  function Counted(actions: seq<Action>): (r: (nat, nat, nat)) {
    if actions == [] then (0, 0, 0)
    else
      var n := |actions| - 1;
      var c := Counted(actions[..n]);
      match actions[n]
      case Count(agent, cupti, unknown) => (c.0 + agent, c.1 + cupti, c.2 + unknown)
      case _ => c
  }

  lemma DoStores(s: System, a: Action)
    requires Can(s, a)
    ensures var s' := Do(s, a);
      && s'.store.captureState == (if StateOf(a).Some? then StateOf(a).value else s.store.captureState)
      && s'.store.stopReason == (if ReasonOf(a).Some? then ReasonOf(a).value else s.store.stopReason)
  {
    hide WellFormed, Receive;
    if a.Deliver? {
      var h := s.control.header;
      ReceiveStore(s, Response(h, s.store.records[s.client.offset..s.client.offset + h.count]));
    }
  }

  lemma ReceiveCounts(s: System, response: Response)
    ensures var s' := Receive(s, response);
      s'.agentDropped == s.agentDropped && s'.cuptiDropped == s.cuptiDropped && s'.unknown == s.unknown
  {
    hide Decode, Append;
  }

  lemma DoCounts(s: System, a: Action)
    requires Can(s, a)
    ensures var s' := Do(s, a);
      if a.Count?
      then s'.agentDropped == s.agentDropped + a.agent && s'.cuptiDropped == s.cuptiDropped + a.cupti
           && s'.unknown == s.unknown + a.unknown
      else s'.agentDropped == s.agentDropped && s'.cuptiDropped == s.cuptiDropped && s'.unknown == s.unknown
  {
    hide WellFormed, Receive, Exec;
    if a.Deliver? {
      var h := s.control.header;
      ReceiveCounts(s, Response(h, s.store.records[s.client.offset..s.client.offset + h.count]));
    }
  }

  /** In every run the agent's state, reason and drop counters are those the actions stored and counted. */
  lemma {:induction false} StoredLast(s: System, capacity: nat, actions: seq<Action>)
    requires InitSystem(s, capacity) && Allowed(s, actions)
    ensures var s' := Play(s, actions);
      && s'.store.captureState == LastState(actions) && s'.store.stopReason == LastReason(actions)
      && (s'.agentDropped, s'.cuptiDropped, s'.unknown) == Counted(actions)
  {
    hide Can, Do, StateOf, ReasonOf;
    if actions != [] {
      var n := |actions| - 1;
      assert actions == actions[..n] + [actions[n]];
      PlaySnoc(s, actions[..n], actions[n]);
      StoredLast(s, capacity, actions[..n]);
      DoStores(Play(s, actions[..n]), actions[n]);
      DoCounts(Play(s, actions[..n]), actions[n]);
    }
  }

  // Where the parts of an answer were loaded

  /** The position of the last action of the same kind of step, or -1. */
  function LastOf(p: Action -> bool, actions: seq<Action>): (k: int)
    ensures -1 <= k < |actions|
    ensures k >= 0 ==> p(actions[k])
    ensures forall i :: k < i < |actions| ==> !p(actions[i])
  {
    if actions == [] then -1
    else if p(actions[|actions| - 1]) then |actions| - 1
    else LastOf(p, actions[..|actions| - 1])
  }

  lemma LastOfSnoc(p: Action -> bool, actions: seq<Action>, a: Action)
    ensures LastOf(p, actions + [a]) == if p(a) then |actions| else LastOf(p, actions)
  {
    assert (actions + [a])[..|actions|] == actions;
  }

  predicate Requests(a: Action) { a.Request? }
  predicate LoadsAvailable(a: Action) { a == LoadAvailable }
  predicate LoadsObserved(a: Action) { a == LoadObserved }
  predicate LoadsRest(a: Action) { a == LoadRest }
  predicate Delivers(a: Action) { a == Deliver }

  /** Positions of the actions that served one request. */
  datatype Trace = Trace(request: int, available: int, observed: int, rest: int)

  function TraceOf(actions: seq<Action>): (t: Trace) {
    Trace(LastOf(Requests, actions), LastOf(LoadsAvailable, actions), LastOf(LoadsObserved, actions),
          LastOf(LoadsRest, actions))
  }

  lemma TraceSnoc(actions: seq<Action>, a: Action)
    ensures var t, n := TraceOf(actions), |actions|;
      TraceOf(actions + [a])
      == match a
         case Request(_) => t.(request := n)
         case LoadAvailable => t.(available := n)
         case LoadObserved => t.(observed := n)
         case LoadRest => t.(rest := n)
         case _ => t
    ensures LastOf(Delivers, actions + [a]) == if a == Deliver then |actions| else LastOf(Delivers, actions)
  {
    hide LastOf;
    LastOfSnoc(Requests, actions, a);
    LastOfSnoc(LoadsAvailable, actions, a);
    LastOfSnoc(LoadsObserved, actions, a);
    LastOfSnoc(LoadsRest, actions, a);
    LastOfSnoc(Delivers, actions, a);
  }

  /** What a complete trace of a request says: what the store held when each part was loaded. */
  datatype Reading = Reading(state: CaptureState, reason: StopReason, end: nat, observed: nat,
                             agentDropped: nat, cuptiDropped: nat, dropped: nat, unknown: nat)

  function OfHeader(h: Header): (r: Reading) {
    Reading(h.state, h.reason, h.offset + h.count, h.observed, h.agentDropped, h.cuptiDropped,
            h.agentDropped + h.cuptiDropped, h.unknown)
  }

  function OfCapture(a: Capture): (r: Reading) {
    Reading(a.state, a.reason, |a.events|, a.observed, a.agentDropped, a.cuptiDropped, a.dropped, a.unknown)
  }

  predicate InOrder(t: Trace) { 0 <= t.request < t.available < t.observed < t.rest }

  ghost function Taken(s: System, actions: seq<Action>, t: Trace): (r: Reading)
    requires Allowed(s, actions) && InOrder(t) && t.rest < |actions|
  {
    var m := At(s, actions, t.rest);
    Reading(m.store.captureState, m.store.stopReason, At(s, actions, t.available).store.committed,
            At(s, actions, t.observed).store.recordCount, m.agentDropped, m.cuptiDropped,
            m.agentDropped + m.cuptiDropped, m.unknown)
  }

  /** The part of the trace that the control thread has made so far. */
  ghost predicate InFlight(s: System, actions: seq<Action>)
    requires Allowed(s, actions)
  {
    var t, control := TraceOf(actions), Play(s, actions).control;
    && (control != Waiting ==> LastOf(Delivers, actions) < t.request)
    && match control
       case LoadingObserved(available) =>
         0 <= t.request < t.available && available == At(s, actions, t.available).store.committed
       case LoadingRest(available, observed) =>
         && 0 <= t.request < t.available < t.observed
         && available == At(s, actions, t.available).store.committed
         && observed == At(s, actions, t.observed).store.recordCount
       case Sending(h) => InOrder(t) && OfHeader(h) == Taken(s, actions, t)
       case _ => true
  }

  /** The client holds what the trace of the last delivered request took. */
  ghost predicate Held(s: System, actions: seq<Action>)
    requires Allowed(s, actions)
  {
    var latest, d := Play(s, actions).client.latest, LastOf(Delivers, actions);
    if d < 0 then latest.None?
    else
      var t := TraceOf(actions[..d]);
      && latest.Some? && LastOf(Delivers, actions[..d]) < t.request
      && InOrder(t) && OfCapture(latest.value) == Taken(s, actions, t)
  }

  lemma TakenSnoc(s: System, actions: seq<Action>, a: Action, t: Trace)
    requires Allowed(s, actions + [a]) && InOrder(t) && t.rest < |actions|
    ensures Allowed(s, actions) && Taken(s, actions + [a], t) == Taken(s, actions, t)
  {
    AtPrefix(s, actions, a, t.rest);
    AtPrefix(s, actions, a, t.available);
    AtPrefix(s, actions, a, t.observed);
  }

  /** Which actions move the control thread, and where to. */
  predicate Moves(a: Action) { !a.Producer? && !a.Count? }

  lemma DoControl(s: System, a: Action)
    requires SystemInv(s) && Can(s, a)
    ensures !Moves(a) ==> Do(s, a).control == s.control
    ensures a != Deliver ==> Do(s, a).client == s.client
  {
    hide WellFormed, Receive, Exec, SystemInv;
  }

  lemma FlightKept(s: System, actions: seq<Action>, a: Action)
    requires Allowed(s, actions + [a]) && Allowed(s, actions) && InFlight(s, actions) && !Moves(a)
    requires Play(s, actions + [a]).control == Play(s, actions).control
    ensures InFlight(s, actions + [a])
  {
    hide Play, Allowed, LastOf, At, Taken, TraceOf;
    TraceSnoc(actions, a);
    var t := TraceOf(actions);
    TraceBounds(actions);
    match Play(s, actions).control
    case LoadingObserved(_) => AtPrefix(s, actions, a, t.available);
    case LoadingRest(_, _) =>
      AtPrefix(s, actions, a, t.available);
      AtPrefix(s, actions, a, t.observed);
    case Sending(h) => TakenSnoc(s, actions, a, t);
    case _ =>
  }

  lemma TraceBounds(actions: seq<Action>)
    ensures var t, n := TraceOf(actions), |actions|;
      -1 <= t.request < n && -1 <= t.available < n && -1 <= t.observed < n && -1 <= t.rest < n
  {
  }

  /** What one action of the control thread does to it. */
  lemma ControlMoves(s: System, a: Action)
    requires Can(s, a) && Moves(a) && a != Deliver
    ensures var c := Do(s, a).control;
      match a
      case LoadAvailable => c == OffsetRefused || c == LoadingObserved(s.store.committed)
      case LoadObserved => c == LoadingRest(s.control.available, s.store.recordCount)
      case LoadRest => c.Sending? && OfHeader(c.header)
                       == Reading(s.store.captureState, s.store.stopReason, s.control.available,
                                  s.control.observed, s.agentDropped, s.cuptiDropped,
                                  s.agentDropped + s.cuptiDropped, s.unknown)
      case _ => c.StopChecking? || c.StopStoring? || c.StopExplaining? || c.LoadingAvailable?
  {
    hide WellFormed, Receive, Exec;
  }

  lemma FlightMoves(s: System, actions: seq<Action>, a: Action)
    requires Allowed(s, actions + [a]) && Allowed(s, actions) && InFlight(s, actions) && Moves(a) && a != Deliver
    requires Can(Play(s, actions), a) && Play(s, actions + [a]) == Do(Play(s, actions), a)
    ensures InFlight(s, actions + [a])
  {
    hide *;
    ControlMoves(Play(s, actions), a);
    RequestsFirst(Play(s, actions), a);
    AtEnd(s, actions, a);
    if a == LoadObserved {
      FlightObserved(s, actions);
    } else if a == LoadRest {
      FlightRest(s, actions);
    } else {
      FlightStarts(s, actions, a);
    }
  }

  lemma FlightStarts(s: System, actions: seq<Action>, a: Action)
    requires Allowed(s, actions + [a]) && Allowed(s, actions) && InFlight(s, actions)
    requires Moves(a) && a != LoadObserved && a != LoadRest && a != Deliver
    requires !a.Request? ==> Play(s, actions).control != Waiting
    requires var c := Play(s, actions + [a]).control;
      if a == LoadAvailable
      then c == OffsetRefused || c == LoadingObserved(At(s, actions + [a], |actions|).store.committed)
      else c.StopChecking? || c.StopStoring? || c.StopExplaining? || c.LoadingAvailable?
    ensures InFlight(s, actions + [a])
  {
    hide Play, Allowed, LastOf, At, TraceOf, Taken;
    TraceSnoc(actions, a);
    TraceBounds(actions);
    DeliverBounds(actions);
  }

  lemma FlightObserved(s: System, actions: seq<Action>)
    requires Allowed(s, actions + [LoadObserved]) && Allowed(s, actions) && InFlight(s, actions)
    requires Play(s, actions).control.LoadingObserved?
    requires Play(s, actions + [LoadObserved]).control
             == LoadingRest(Play(s, actions).control.available,
                            At(s, actions + [LoadObserved], |actions|).store.recordCount)
    ensures InFlight(s, actions + [LoadObserved])
  {
    hide Play, Allowed, LastOf, At, TraceOf, Taken;
    TraceSnoc(actions, LoadObserved);
    TraceBounds(actions);
    AtPrefix(s, actions, LoadObserved, TraceOf(actions).available);
  }

  lemma FlightRest(s: System, actions: seq<Action>)
    requires Allowed(s, actions + [LoadRest]) && Allowed(s, actions) && InFlight(s, actions)
    requires Play(s, actions).control.LoadingRest? && Play(s, actions + [LoadRest]).control.Sending?
    requires var m, c := At(s, actions + [LoadRest], |actions|), Play(s, actions).control;
      OfHeader(Play(s, actions + [LoadRest]).control.header)
      == Reading(m.store.captureState, m.store.stopReason, c.available, c.observed,
                 m.agentDropped, m.cuptiDropped, m.agentDropped + m.cuptiDropped, m.unknown)
    ensures InFlight(s, actions + [LoadRest])
  {
    hide Play, Allowed, LastOf, At, TraceOf, OfHeader;
    TraceSnoc(actions, LoadRest);
    TraceBounds(actions);
    AtPrefix(s, actions, LoadRest, TraceOf(actions).available);
    AtPrefix(s, actions, LoadRest, TraceOf(actions).observed);
  }

  lemma AtEnd(s: System, actions: seq<Action>, a: Action)
    requires Allowed(s, actions + [a]) && Allowed(s, actions)
    ensures At(s, actions + [a], |actions|) == Play(s, actions)
  {
    assert (actions + [a])[..|actions|] == actions;
  }

  lemma RequestsFirst(s: System, a: Action)
    requires Can(s, a) && Moves(a)
    ensures !a.Request? ==> s.control != Waiting
    ensures a.LoadObserved? ==> s.control.LoadingObserved?
    ensures a.LoadRest? ==> s.control.LoadingRest?
    ensures a.Deliver? ==> s.control.Sending?
  {
    hide WellFormed;
  }

  /** An answer leaves at the client what its header says. */
  lemma DeliverHeld(s: System)
    requires SystemInv(s) && Can(s, Deliver)
    ensures var s' := Do(s, Deliver);
      s'.control == Waiting && s'.client.latest.Some? && OfCapture(s'.client.latest.value) == OfHeader(s.control.header)
  {
    var s' := Do(s, Deliver);
    DeliverKeeps(s);
    DeliveredLength(s, s');
    hide Batch, Drained, SystemInv, Do, Can;
  }

  lemma DeliveredLength(s: System, s': System)
    requires SystemInv(s) && SystemInv(s') && s.control.Sending? && s'.client.latest.Some?
    requires s'.client.offset == s.client.offset + s.control.header.count
    ensures |s'.client.latest.value.events| == s.control.header.offset + s.control.header.count
  {
    hide Batch, Drained, Inv, RecordsWellFormed;
    StoreBounds(s'.store);
    DrainedExact(s'.store.log, s'.cuts);
  }

  lemma HeldKept(s: System, actions: seq<Action>, a: Action)
    requires Allowed(s, actions + [a]) && Allowed(s, actions) && Held(s, actions) && a != Deliver
    requires Play(s, actions + [a]).client == Play(s, actions).client
    ensures Held(s, actions + [a])
  {
    hide Play, Allowed, LastOf, At, TraceOf, Taken;
    TraceSnoc(actions, a);
    var d := LastOf(Delivers, actions);
    DeliverBounds(actions);
    if d >= 0 {
      assert (actions + [a])[..d] == actions[..d];
      TraceBounds(actions[..d]);
      TakenSnoc(s, actions, a, TraceOf(actions[..d]));
    }
  }

  lemma DeliverBounds(actions: seq<Action>)
    ensures -1 <= LastOf(Delivers, actions) < |actions|
  {
  }

  lemma HeldDelivered(s: System, actions: seq<Action>)
    requires Allowed(s, actions + [Deliver]) && Allowed(s, actions) && InFlight(s, actions)
    requires Can(Play(s, actions), Deliver) && Play(s, actions + [Deliver]) == Do(Play(s, actions), Deliver)
    requires SystemInv(Play(s, actions))
    ensures InFlight(s, actions + [Deliver]) && Held(s, actions + [Deliver])
  {
    DeliverHeld(Play(s, actions));
    RequestsFirst(Play(s, actions), Deliver);
    hide Play, Allowed, LastOf, At, TraceOf, Taken, Do, Can, SystemInv;
    TraceSnoc(actions, Deliver);
    TraceBounds(actions);
    assert (actions + [Deliver])[..|actions|] == actions;
    TakenSnoc(s, actions, Deliver, TraceOf(actions));
  }

  lemma {:induction false} RunTraced(s: System, capacity: nat, actions: seq<Action>)
    requires InitSystem(s, capacity) && Allowed(s, actions)
    ensures InFlight(s, actions) && Held(s, actions)
  {
    hide InFlight, Held, Do, Can, SystemInv, InitSystem;
    if actions == [] {
      Untraced(s, capacity);
    } else {
      var n := |actions| - 1;
      var before, a := actions[..n], actions[n];
      assert actions == before + [a];
      PlaySnoc(s, before, a);
      RunTraced(s, capacity, before);
      InitSystemInv(s, capacity);
      PlayKeeps(s, before);
      DoControl(Play(s, before), a);
      if a == Deliver {
        HeldDelivered(s, before);
      } else {
        HeldKept(s, before, a);
        if Moves(a) { FlightMoves(s, before, a); } else { FlightKept(s, before, a); }
      }
    }
  }

  lemma Untraced(s: System, capacity: nat)
    requires InitSystem(s, capacity)
    ensures InFlight(s, []) && Held(s, [])
  {
  }

  // What the client is told

  /** The actions that served one answer, in order, with nothing requested or delivered in between. */
  predicate Serves(actions: seq<Action>, t: Trace, d: nat) {
    && InOrder(t) && t.rest < d < |actions|
    && actions[t.request].Request? && actions[t.available] == LoadAvailable
    && actions[t.observed] == LoadObserved && actions[t.rest] == LoadRest && actions[d] == Deliver
    && (forall m :: t.request < m < d ==> !actions[m].Request? && actions[m] != Deliver)
  }

  lemma TraceServes(actions: seq<Action>)
    requires LastOf(Delivers, actions) >= 0
    requires var d := LastOf(Delivers, actions);
      InOrder(TraceOf(actions[..d])) && LastOf(Delivers, actions[..d]) < TraceOf(actions[..d]).request
    ensures var d := LastOf(Delivers, actions);
      && Serves(actions, TraceOf(actions[..d]), d)
      && forall m :: d < m < |actions| ==> actions[m] != Deliver
  {
    hide *;
    LastDeliver(actions);
    var d := LastOf(Delivers, actions);
    TraceMeans(actions[..d]);
    PrefixServes(actions, TraceOf(actions[..d]), d);
  }

  lemma LastDeliver(actions: seq<Action>)
    ensures var d := LastOf(Delivers, actions);
      && d < |actions| && (d >= 0 ==> actions[d] == Deliver)
      && forall m :: d < m < |actions| ==> actions[m] != Deliver
  {
    var d := LastOf(Delivers, actions);
    assert d >= 0 ==> Delivers(actions[d]);
    forall m | d < m < |actions| ensures actions[m] != Deliver { assert !Delivers(actions[m]); }
  }

  ghost predicate ServedBy(p: seq<Action>, t: Trace) {
    && InOrder(t) && t.rest < |p| && p[t.request].Request? && p[t.available] == LoadAvailable
    && p[t.observed] == LoadObserved && p[t.rest] == LoadRest
    && (forall m :: t.request < m < |p| ==> !p[m].Request? && p[m] != Deliver)
  }

  lemma PrefixServes(actions: seq<Action>, t: Trace, d: nat)
    requires d < |actions| && actions[d] == Deliver && ServedBy(actions[..d], t)
    ensures Serves(actions, t, d)
  {
    forall m | t.request < m < d ensures !actions[m].Request? && actions[m] != Deliver {
      assert actions[..d][m] == actions[m];
    }
  }

  lemma TraceMeans(p: seq<Action>)
    requires InOrder(TraceOf(p)) && LastOf(Delivers, p) < TraceOf(p).request
    ensures ServedBy(p, TraceOf(p))
  {
    var t := TraceOf(p);
    assert Requests(p[t.request]) && LoadsAvailable(p[t.available]);
    assert LoadsObserved(p[t.observed]) && LoadsRest(p[t.rest]);
    forall m | t.request < m < |p| ensures !p[m].Request? && p[m] != Deliver {
      assert !Requests(p[m]) && !Delivers(p[m]);
    }
  }

  /** In every run the client's capture is what one request loaded: the records committed and reserved at two of
      its loads, and the state, the reason and the drop counts that the actions before its last load stored. */
  lemma AnswerIsPast(s: System, capacity: nat, actions: seq<Action>) returns (t: Trace, d: nat)
    requires InitSystem(s, capacity) && Allowed(s, actions) && Play(s, actions).client.latest.Some?
    ensures Serves(actions, t, d) && forall m :: d < m < |actions| ==> actions[m] != Deliver
    ensures var a := Play(s, actions).client.latest.value;
      && a.state == LastState(actions[..t.rest]) && a.reason == LastReason(actions[..t.rest])
      && (a.agentDropped, a.cuptiDropped, a.unknown) == Counted(actions[..t.rest])
      && a.dropped == a.agentDropped + a.cuptiDropped && a.capacity == capacity
      && a.observed == At(s, actions, t.observed).store.recordCount
      && |a.events| == At(s, actions, t.available).store.committed
  {
    hide SystemInv, Can, LastState, LastReason, Counted;
    RunTraced(s, capacity, actions);
    d := LastOf(Delivers, actions);
    t := TraceOf(actions[..d]);
    TraceServes(actions);
    AllowedPrefix(s, actions, t.rest);
    StoredLast(s, capacity, actions[..t.rest]);
    HeldCapacity(s, capacity, actions);
  }

  lemma HeldCapacity(s: System, capacity: nat, actions: seq<Action>)
    requires InitSystem(s, capacity) && Allowed(s, actions) && Play(s, actions).client.latest.Some?
    ensures Play(s, actions).client.latest.value.capacity == capacity
  {
    hide Can, Inv, Drained;
    InitSystemInv(s, capacity);
    PlayKeeps(s, actions);
    CapacityStays(s, actions);
  }

  lemma {:induction false} LastStateStored(actions: seq<Action>)
    ensures LastState(actions) != Active ==> exists m :: 0 <= m < |actions| && StateOf(actions[m]) == Some(LastState(actions))
  {
    if actions != [] {
      var n := |actions| - 1;
      LastStateStored(actions[..n]);
      if StateOf(actions[n]).None? && LastState(actions) != Active {
        var m :| 0 <= m < n && StateOf(actions[..n][m]) == Some(LastState(actions[..n]));
        assert StateOf(actions[m]) == Some(LastState(actions));
      }
    }
  }

  /** A capture that the client accepts as complete was stopped: some action stored that state. */
  lemma StoppedWasStored(s: System, capacity: nat, actions: seq<Action>)
    requires InitSystem(s, capacity) && Allowed(s, actions) && Play(s, actions).client.latest.Some?
    requires RejectIncomplete(Play(s, actions).client.latest.value, true) == None
    ensures exists m :: 0 <= m < |actions|
              && (actions[m] == StoreStopped || exists reason :: actions[m] == Producer(Mark(Stopped, reason)))
  {
    hide Allowed, Play, LastOf, At, TraceOf, Taken, InitSystem, LastState;
    var t, d := AnswerIsPast(s, capacity, actions);
    StoppedSomewhere(actions, t.rest);
  }

  lemma StoppedSomewhere(actions: seq<Action>, k: nat)
    requires k <= |actions| && LastState(actions[..k]) == Stopped
    ensures exists m :: 0 <= m < |actions|
              && (actions[m] == StoreStopped || exists reason :: actions[m] == Producer(Mark(Stopped, reason)))
  {
    hide LastState;
    LastStateStored(actions[..k]);
    var m :| 0 <= m < k && StateOf(actions[..k][m]) == Some(Stopped);
    assert StateOf(actions[m]) == Some(Stopped);
  }

  lemma {:induction false} StateStays(actions: seq<Action>, i: nat, state: CaptureState)
    requires i < |actions| && StateOf(actions[i]) == Some(state)
    requires forall m :: i < m < |actions| ==> StateOf(actions[m]) == None || StateOf(actions[m]) == Some(state)
    ensures LastState(actions) == state
  {
    hide StateOf;
    var n := |actions| - 1;
    if StateOf(actions[n]).None? { StateStays(actions[..n], i, state); }
  }

  /** A limit stored before an answered request is reported, unless some action overwrites it. */
  lemma LimitReported(s: System, capacity: nat, before: seq<Action>, stop: bool, after: seq<Action>, i: nat, c: bool)
    requires InitSystem(s, capacity) && Allowed(s, before + [Request(stop)] + after)
    requires i < |before| && StateOf(before[i]) == Some(LimitReached) && Deliver in after
    requires forall a :: a in before[i..] || a in after ==> StateOf(a) == None || StateOf(a) == Some(LimitReached)
    ensures var latest := Play(s, before + [Request(stop)] + after).client.latest;
      latest.Some? && RejectIncomplete(latest.value, c) == Some(LimitWasReached)
  {
    hide Allowed, Play, LastOf, At, TraceOf, Taken, InitSystem, LastState, StateOf;
    var actions := before + [Request(stop)] + after;
    RunTraced(s, capacity, actions);
    DeliveredLate(before, stop, after);
    var t, d := AnswerIsPast(s, capacity, actions);
    AnsweredLate(before, stop, after, t, d);
    LimitStands(before, stop, after, i, t.rest);
  }

  /** The last answer serves a request that is not before one with a later delivery. */
  lemma AnsweredLate(before: seq<Action>, stop: bool, after: seq<Action>, t: Trace, d: nat)
    requires var actions := before + [Request(stop)] + after;
      Serves(actions, t, d) && Deliver in after && forall m :: d < m < |actions| ==> actions[m] != Deliver
    ensures |before| <= t.request
  {
    var actions := before + [Request(stop)] + after;
    var q :| 0 <= q < |after| && after[q] == Deliver;
    assert actions[|before|] == Request(stop) && actions[|before| + 1 + q] == Deliver;
  }

  lemma LimitStands(before: seq<Action>, stop: bool, after: seq<Action>, i: nat, k: nat)
    requires i < |before| <= k <= |before| + 1 + |after| && StateOf(before[i]) == Some(LimitReached)
    requires forall a :: a in before[i..] || a in after ==> StateOf(a) == None || StateOf(a) == Some(LimitReached)
    ensures LastState((before + [Request(stop)] + after)[..k]) == LimitReached
  {
    hide LastState;
    var actions, n := (before + [Request(stop)] + after)[..k], |before|;
    assert actions[i] == before[i];
    forall m | i < m < k ensures StateOf(actions[m]) == None || StateOf(actions[m]) == Some(LimitReached) {
      if m < n {
        assert actions[m] == before[i..][m - i];
      } else if m > n {
        assert actions[m] == after[m - n - 1];
      }
    }
    hide StateOf;
    StateStays(actions, i, LimitReached);
  }

  lemma DeliveredLate(before: seq<Action>, stop: bool, after: seq<Action>)
    requires Deliver in after
    ensures LastOf(Delivers, before + [Request(stop)] + after) >= 0
  {
    var actions := before + [Request(stop)] + after;
    var q :| 0 <= q < |after| && after[q] == Deliver;
    assert Delivers(actions[|before| + 1 + q]);
  }
}

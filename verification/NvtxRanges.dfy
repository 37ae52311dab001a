/** The agent's table of started NVTX ranges: open addressing with tombstones, refining a
    finite map from range keys to what was remembered when the range started.  Operations run
    one after another: range identifiers are supplied by NVTX, so two starts of one key do not
    race.
 */
module NvtxRanges {
  import opened Common
  import opened Utf8
  import opened AgentNames
  import opened LinearProbing

  datatype Key = Key(kind: nat, id: nat)

  datatype Info = Info(startTid: nat, name: seq<Byte>, nameComplete: bool)

  /** `state` is 0 for an empty slot, 1 while it is written, 2 for a tombstone, and the key's
      hash for a live range. */
  datatype Slot = Slot(state: nat, key: Key, info: Info)

  const EMPTY: nat := 0
  const WRITING: nat := 1
  const TOMBSTONE: nat := 2

  predicate Live(s: Slot) { s.state > TOMBSTONE }

  predicate Holds(s: Slot, k: Key) { Live(s) && s.key == k }

  ghost predicate HashOk(hash: Key -> nat) { forall k :: hash(k) > TOMBSTONE }

  /** What a range start leaves in its slot. */
  function Remembered(startTid: nat, name: Option<CString>): Info {
    match name
    case None => Info(startTid, [], true)
    case Some(bytes) => Info(startTid, bytes[..StoredLength(bytes)], |bytes| < NAME_LENGTH)
  }

  /** The bytes are those of the longest prefix of the text that leaves room for a terminator. */
  ghost predicate LongestStored(text: seq<Scalar>, stored: seq<Byte>) {
    exists m: nat :: m <= |text| && stored == Encode(text[..m]) && |stored| < NAME_LENGTH
                     && (m == |text| || |Encode(text[..m + 1])| >= NAME_LENGTH)
  }

  /** What a range's end is told of its start: the thread, and the name or as much of it as fits. */
  ghost predicate Tells(info: Info, startTid: nat, name: Option<CString>) {
    && info.startTid == startTid
    && (name.None? ==> info.name == [] && info.nameComplete)
    && (name.Some? ==> info.name <= name.value && (info.nameComplete <==> info.name == name.value))
    && (forall text :: name == Some(Encode(text)) ==> LongestStored(text, info.name))
  }

  lemma RememberedTells(startTid: nat, name: Option<CString>)
    ensures Tells(Remembered(startTid, name), startTid, name)
  {
    hide Encode, EncodeChar, StoredLength;
    var info := Remembered(startTid, name);
    if name.Some? { assert |name.value| < NAME_LENGTH ==> StoredLength(name.value) == |name.value| by { ShortStored(name.value); } }
    forall text | name == Some(Encode(text)) ensures LongestStored(text, info.name) {
      var m := FitCount(text, NAME_LENGTH - 1);
      StoresLongestPrefix(text);
      FitIsLongest(text, NAME_LENGTH - 1);
    }
  }

  lemma ShortStored(bytes: seq<Byte>)
    ensures if |bytes| < NAME_LENGTH then StoredLength(bytes) == |bytes| else StoredLength(bytes) < |bytes|
  {
  }

  /** A copied name is what is remembered of it. */
  lemma CopiedInfo(buffer: seq<Byte>, complete: bool, startTid: nat, name: Option<CString>)
    requires |buffer| == NAME_LENGTH && (complete <==> name == None || |name.value| < NAME_LENGTH)
    requires name == None ==> buffer[0] == 0
    requires name.Some? ==>
               var n := StoredLength(name.value); buffer[..n] == name.value[..n] && buffer[n] == 0
    ensures Info(startTid, Text(buffer), complete) == Remembered(startTid, name)
  {
    if name.Some? { BufferText(buffer, name.value[..StoredLength(name.value)]); }
  }

  // The table represents a map

  function At(hash: Key -> nat, slots: seq<Slot>, k: Key, p: nat): Slot
    requires |slots| > 0
  {
    slots[SlotIndex(hash(k), p, |slots|)]
  }

  /** No empty slot precedes slot `j` on the probe path of `k`. */
  ghost predicate Reachable(hash: Key -> nat, slots: seq<Slot>, k: Key, j: nat)
    requires j < |slots|
  {
    forall p: nat :: p < ProbeOf(hash(k), j, |slots|) ==> At(hash, slots, k, p).state != EMPTY
  }

  ghost predicate SlotsMatch(hash: Key -> nat, slots: seq<Slot>, m: map<Key, Info>) {
    forall j: nat :: j < |slots| ==>
      && slots[j].state != WRITING
      && (Live(slots[j]) ==>
            && slots[j].state == hash(slots[j].key)
            && slots[j].key in m && m[slots[j].key] == slots[j].info
            && Reachable(hash, slots, slots[j].key, j))
  }

  ghost predicate Unique(slots: seq<Slot>) {
    forall i, j :: 0 <= i < j < |slots| && Live(slots[i]) && Live(slots[j]) ==> slots[i].key != slots[j].key
  }

  ghost predicate Stored(slots: seq<Slot>, k: Key) {
    exists j :: 0 <= j < |slots| && Holds(slots[j], k)
  }

  /** A live range is stored once, under its hash, and no empty slot precedes it on the
      probe path of its key. */
  ghost predicate Represents(hash: Key -> nat, slots: seq<Slot>, m: map<Key, Info>) {
    && |slots| > 0 && HashOk(hash)
    && SlotsMatch(hash, slots, m) && Unique(slots)
    && (forall k :: k in m ==> Stored(slots, k))
  }

  /** None of the first `p` probes of `k` is empty or holds `k`. */
  ghost predicate Missed(hash: Key -> nat, slots: seq<Slot>, k: Key, p: nat) {
    |slots| > 0 && forall q: nat :: q < p ==>
      At(hash, slots, k, q).state != EMPTY && !Holds(At(hash, slots, k, q), k)
  }

  /** A search that meets an empty slot, or every slot, has not overlooked the key. */
  lemma SearchComplete(hash: Key -> nat, slots: seq<Slot>, m: map<Key, Info>, k: Key, p: nat)
    requires Represents(hash, slots, m) && p <= |slots| && Missed(hash, slots, k, p)
    requires p == |slots| || At(hash, slots, k, p).state == EMPTY
    ensures k !in m
  {
    forall j | 0 <= j < |slots| ensures !Holds(slots[j], k) {
      var q := ProbeOf(hash(k), j, |slots|);
      assert At(hash, slots, k, q) == slots[j];
      assert Live(slots[j]) ==> Reachable(hash, slots, slots[j].key, j);
    }
  }

  lemma StillReachable(hash: Key -> nat, slots: seq<Slot>, c: nat, s: Slot, k: Key, j: nat)
    requires c < |slots| && j < |slots| && s.state != EMPTY && Reachable(hash, slots, k, j)
    ensures Reachable(hash, slots[c := s], k, j)
  {
    hide SlotIndex;
    var slots' := slots[c := s];
    forall p: nat | p < ProbeOf(hash(k), j, |slots|) ensures At(hash, slots', k, p).state != EMPTY {
      assert At(hash, slots, k, p).state != EMPTY;
    }
  }

  /** Filling a slot that is not live, with no empty slot before it, adds one key and hides none. */
  lemma InsertKeeps(hash: Key -> nat, slots: seq<Slot>, m: map<Key, Info>, k: Key, info: Info, p: nat)
    requires Represents(hash, slots, m) && k !in m && p < |slots|
    requires !Live(At(hash, slots, k, p))
    requires forall q: nat :: q < p ==> At(hash, slots, k, q).state != EMPTY
    ensures Represents(hash, slots[SlotIndex(hash(k), p, |slots|) := Slot(hash(k), k, info)], m[k := info])
  {
    var c := SlotIndex(hash(k), p, |slots|);
    var s := Slot(hash(k), k, info);
    var slots' := slots[c := s];
    ProbesDiffer(hash(k), p, ProbeOf(hash(k), c, |slots|), |slots|);
    hide SlotIndex, ProbeOf;
    assert Reachable(hash, slots, k, c);
    forall j: nat | j < |slots'| && Live(slots'[j]) ensures Reachable(hash, slots', slots'[j].key, j) {
      StillReachable(hash, slots, c, s, slots'[j].key, j);
    }
    hide Reachable, At;
    forall x | x in m[k := info] ensures Stored(slots', x) {
      if x == k {
        assert Holds(slots'[c], k);
      } else {
        assert Stored(slots, x);
        var j :| 0 <= j < |slots| && Holds(slots[j], x);
        assert Holds(slots'[j], x);
      }
    }
  }

  /** Turning a live slot into a tombstone removes its key and hides no other. */
  lemma RemoveKeeps(hash: Key -> nat, slots: seq<Slot>, m: map<Key, Info>, k: Key, c: nat)
    requires Represents(hash, slots, m) && c < |slots| && Holds(slots[c], k)
    ensures k in m && m[k] == slots[c].info
    ensures Represents(hash, slots[c := slots[c].(state := TOMBSTONE)], m - {k})
  {
    var s := slots[c].(state := TOMBSTONE);
    var slots' := slots[c := s];
    hide SlotIndex, ProbeOf;
    forall j: nat | j < |slots'| && Live(slots'[j]) ensures Reachable(hash, slots', slots'[j].key, j) {
      StillReachable(hash, slots, c, s, slots'[j].key, j);
    }
    hide Reachable, At;
    forall x | x in m - {k} ensures Stored(slots', x) {
      assert Stored(slots, x);
      var j :| 0 <= j < |slots| && Holds(slots[j], x);
      assert Holds(slots'[j], x);
    }
  }

  // The table is full exactly when the map has one key per slot

  ghost function LiveKeys(slots: seq<Slot>): (keys: set<Key>) {
    set j | 0 <= j < |slots| && Live(slots[j]) :: slots[j].key
  }

  lemma {:induction false} LiveKeysCount(slots: seq<Slot>)
    requires Unique(slots)
    ensures |LiveKeys(slots)| <= |slots|
    ensures |LiveKeys(slots)| == |slots| <==> forall j :: 0 <= j < |slots| ==> Live(slots[j])
  {
    if slots == [] {
      assert LiveKeys(slots) == {};
    } else {
      var n := |slots| - 1;
      LiveKeysCount(slots[..n]);
      if Live(slots[n]) {
        assert LiveKeys(slots) == LiveKeys(slots[..n]) + {slots[n].key};
      } else {
        assert LiveKeys(slots) == LiveKeys(slots[..n]);
      }
    }
  }

  lemma FullIff(hash: Key -> nat, slots: seq<Slot>, m: map<Key, Info>)
    requires Represents(hash, slots, m)
    ensures |m| <= |slots|
    ensures |m| == |slots| <==> forall j :: 0 <= j < |slots| ==> Live(slots[j])
  {
    LiveKeysCount(slots);
    hide Reachable;
    forall k ensures k in m.Keys <==> k in LiveKeys(slots) {
      if k in m {
        assert Stored(slots, k);
        var j :| 0 <= j < |slots| && Holds(slots[j], k);
      }
    }
    assert m.Keys == LiveKeys(slots);
    assert |m| == |m.Keys|;
  }

  lemma EmptyTable(hash: Key -> nat, slots: seq<Slot>)
    requires HashOk(hash) && |slots| > 0 && forall j :: 0 <= j < |slots| ==> slots[j].state == EMPTY
    ensures Represents(hash, slots, map[])
  {
  }

  // The abstract map

  /** The outcome of a range start. */
  datatype Outcome = Accepted | Duplicate | CapacityReached

  function RememberSpec(m: map<Key, Info>, capacity: nat, k: Key, info: Info): (r: (map<Key, Info>, Outcome)) {
    if k in m then (m, Duplicate)
    else if |m| < capacity then (m[k := info], Accepted)
    else (m, CapacityReached)
  }

  function TakeSpec(m: map<Key, Info>, k: Key): (r: (map<Key, Info>, Option<Info>)) {
    if k in m then (m - {k}, Some(m[k])) else (m, None)
  }

  datatype Op = Start(key: Key, tid: nat, name: Option<CString>) | End(key: Key)

  function Apply(m: map<Key, Info>, capacity: nat, op: Op): map<Key, Info> {
    match op
    case Start(k, tid, name) => RememberSpec(m, capacity, k, Remembered(tid, name)).0
    case End(k) => TakeSpec(m, k).0
  }

  function ApplyAll(m: map<Key, Info>, capacity: nat, ops: seq<Op>): (m': map<Key, Info>)
    decreases |ops|
  {
    if ops == [] then m else ApplyAll(Apply(m, capacity, ops[0]), capacity, ops[1..])
  }

  /** What the ends among the operations get. */
  function Answers(m: map<Key, Info>, capacity: nat, ops: seq<Op>): (r: seq<Option<Info>>)
    decreases |ops|
  {
    if ops == [] then []
    else (if ops[0].End? then [TakeSpec(m, ops[0].key).1] else [])
         + Answers(Apply(m, capacity, ops[0]), capacity, ops[1..])
  }

  lemma {:induction false} OneMore(m: map<Key, Info>, capacity: nat, ops: seq<Op>, op: Op)
    ensures ApplyAll(m, capacity, ops + [op]) == Apply(ApplyAll(m, capacity, ops), capacity, op)
    ensures Answers(m, capacity, ops + [op])
            == Answers(m, capacity, ops) + if op.End? then [TakeSpec(ApplyAll(m, capacity, ops), op.key).1] else []
    decreases |ops|
  {
    hide Apply, TakeSpec;
    if ops == [] {
      assert ops + [op] == [op] && [op][1..] == [];
    } else {
      assert (ops + [op])[1..] == ops[1..] + [op];
      OneMore(Apply(m, capacity, ops[0]), capacity, ops[1..], op);
    }
  }

  /** Whatever other ranges start and end in between, the end of an accepted range gets exactly
      the thread and name of its own start, and a second start in between is refused. */
  lemma {:induction false} EndGetsItsStart(m: map<Key, Info>, capacity: nat, k: Key, info: Info, ops: seq<Op>)
    requires k in m && m[k] == info
    requires forall i :: 0 <= i < |ops| ==> ops[i] != End(k)
    ensures var m' := ApplyAll(m, capacity, ops);
            && TakeSpec(m', k) == (m' - {k}, Some(info))
            && forall other :: RememberSpec(m', capacity, k, other) == (m', Duplicate)
    decreases |ops|
  {
    if ops != [] { EndGetsItsStart(Apply(m, capacity, ops[0]), capacity, k, info, ops[1..]); }
  }

  class RangeTable {
    const hash: Key -> nat
    const slots: array<Slot>
    var dropped: nat
    var limitReached: bool
    var outputError: bool
    ghost var contents: map<Key, Info>

    ghost predicate Valid()
      reads this, slots
    {
      Represents(hash, slots[..], contents)
    }

    /** A freshly armed table: every slot empty. */
    constructor (hash: Key -> nat, capacity: nat)
      requires capacity > 0 && HashOk(hash)
      ensures Valid() && fresh(slots) && slots.Length == capacity && this.hash == hash
      ensures contents == map[] && dropped == 0 && !limitReached && !outputError
    {
      this.hash := hash;
      slots := new Slot[capacity](_ => Slot(EMPTY, Key(0, 0), Info(0, [], false)));
      dropped, limitReached, outputError := 0, false, false;
      contents := map[];
      new;
      EmptyTable(hash, slots[..]);
    }

    /** Remembers a started range, or refuses it. */
    method Remember(key: Key, startTid: nat, name: Option<CString>) returns (stored: bool)
      requires Valid()
      modifies this, slots
      ensures Valid()
      ensures var spec := RememberSpec(old(contents), slots.Length, key, Remembered(startTid, name));
              && contents == spec.0
              && stored == spec.1.Accepted?
              && dropped == old(dropped) + (if stored then 0 else 1)
              && limitReached == (old(limitReached) || spec.1.CapacityReached?)
      ensures stored ==> key in contents && Tells(contents[key], startTid, name)
      ensures outputError == old(outputError)
    {
      hide Represents, Missed, At, SlotIndex, Remembered, AllProbesLive, Live, Tells;
      RememberedTells(startTid, name);
      ghost var before := slots[..];
      var h, n := hash(key), slots.Length;
      var candidate: Option<nat> := None;
      ghost var at := 0;
      FullIff(hash, before, contents);
      HasSlots(hash, before, contents);
      MissedNone(hash, before, key);
      var probe := 0;
      while probe < n
        invariant probe <= n && Missed(hash, before, key, probe)
        invariant candidate.Some? ==> at < probe && candidate.value == SlotIndex(h, at, n)
                                      && before[candidate.value].state == TOMBSTONE
        invariant candidate.None? ==> AllProbesLive(hash, before, key, probe)
        invariant slots[..] == before && contents == old(contents) && dropped == old(dropped)
        invariant limitReached == old(limitReached) && outputError == old(outputError)
      {
        var index := SlotIndex(h, probe, n);
        var state := slots[index].state;
        assert slots[index] == before[index];
        Visit(hash, before, contents, key, probe);
        if state == h && slots[index].key == key {
          dropped := dropped + 1;
          RemoveKeeps(hash, before, contents, key, index);
          return false;
        }
        if state == TOMBSTONE && candidate == None {
          candidate, at := Some(index), probe;
          probe := probe + 1;
          continue;
        }
        if state == EMPTY {
          if candidate == None { candidate, at := Some(index), probe; }
          break;
        }
        probe := probe + 1;
      }
      EndSearch(hash, before, contents, key, probe);
      if candidate.Some? {
        var c := candidate.value;
        var buffer := new Byte[NAME_LENGTH];
        var complete := CopyNvtxName(buffer, name);
        var info := Info(startTid, Text(buffer[..]), complete);
        CopiedInfo(buffer[..], complete, startTid, name);
        InsertFound(hash, before, contents, key, info, at, probe);
        slots[c] := slots[c].(state := WRITING);
        slots[c] := Slot(h, key, info);
        assert slots[..] == before[c := Slot(h, key, info)];
        contents := contents[key := info];
        return true;
      }
      AllLive(hash, before, key);
      dropped, limitReached := dropped + 1, true;
      return false;
    }

    /** Ends a range: its slot becomes a tombstone, and the caller gets what was remembered
        unless the clock cannot be read. */
    method Take(key: Key, clockOk: bool) returns (taken: Option<Info>)
      requires Valid()
      modifies this, slots
      ensures Valid()
      ensures var spec := TakeSpec(old(contents), key);
              && contents == spec.0
              && taken == (if clockOk then spec.1 else None)
              && outputError == (old(outputError) || (spec.1.Some? && !clockOk))
      ensures dropped == old(dropped) && limitReached == old(limitReached)
    {
      hide Represents, Missed, At, SlotIndex;
      ghost var before := slots[..];
      var h, n := hash(key), slots.Length;
      HasSlots(hash, before, contents);
      MissedNone(hash, before, key);
      var probe := 0;
      while probe < n
        invariant probe <= n && Missed(hash, before, key, probe)
        invariant slots[..] == before && contents == old(contents) && dropped == old(dropped)
        invariant limitReached == old(limitReached) && outputError == old(outputError)
      {
        var index := SlotIndex(h, probe, n);
        var state := slots[index].state;
        assert slots[index] == before[index];
        Visit(hash, before, contents, key, probe);
        if state == EMPTY {
          EndSearch(hash, before, contents, key, probe);
          return None;
        }
        if state != h || slots[index].key != key {
          probe := probe + 1;
          continue;
        }
        RemoveKeeps(hash, before, contents, key, index);
        var info := slots[index].info;
        slots[index] := slots[index].(state := WRITING);
        slots[index] := slots[index].(state := TOMBSTONE);
        assert slots[..] == before[index := before[index].(state := TOMBSTONE)];
        contents := contents - {key};
        if !clockOk {
          outputError := true;
          return None;
        }
        return Some(info);
      }
      EndSearch(hash, before, contents, key, probe);
      return None;
    }

    /** Runs a list of operations on the table: the map and every answer are those of the abstract map. */
    method Replay(ops: seq<Op>) returns (taken: seq<Option<Info>>)
      requires Valid()
      modifies this, slots
      ensures Valid()
      ensures contents == ApplyAll(old(contents), slots.Length, ops)
      ensures taken == Answers(old(contents), slots.Length, ops)
    {
      hide ApplyAll, Answers, TakeSpec, RememberSpec, Represents;
      taken := [];
      NoOps(contents, slots.Length);
      for i := 0 to |ops|
        invariant Valid()
        invariant contents == ApplyAll(old(contents), slots.Length, ops[..i])
        invariant taken == Answers(old(contents), slots.Length, ops[..i])
      {
        assert ops[..i + 1] == ops[..i] + [ops[i]];
        OneMore(old(contents), slots.Length, ops[..i], ops[i]);
        match ops[i]
        case Start(key, tid, name) => var _ := Remember(key, tid, name);
        case End(key) =>
          var info := Take(key, true);
          taken := taken + [info];
      }
      assert ops[..|ops|] == ops;
    }

    /** A range that is accepted gets its own thread and name back at its end, whatever happens in between. */
    method Lifetime(key: Key, tid: nat, name: Option<CString>, between: seq<Op>) returns (taken: Option<Info>)
      requires Valid() && key !in contents && |contents| < slots.Length && End(key) !in between
      modifies this, slots
      ensures Valid() && key !in contents
      ensures taken == Some(Remembered(tid, name)) && Tells(taken.value, tid, name)
    {
      RememberedTells(tid, name);
      var _ := Remember(key, tid, name);
      ghost var m := contents;
      var _ := Replay(between);
      EndGetsItsStart(m, slots.Length, key, Remembered(tid, name), between);
      taken := Take(key, true);
    }
  }

  lemma NoOps(m: map<Key, Info>, capacity: nat)
    ensures ApplyAll(m, capacity, []) == m && Answers(m, capacity, []) == []
  {
  }

  ghost predicate AllProbesLive(hash: Key -> nat, slots: seq<Slot>, k: Key, p: nat) {
    |slots| > 0 && forall q: nat :: q < p ==> Live(At(hash, slots, k, q))
  }

  lemma HasSlots(hash: Key -> nat, slots: seq<Slot>, m: map<Key, Info>)
    requires Represents(hash, slots, m)
    ensures |slots| > 0 && HashOk(hash)
  {
  }

  lemma MissedNone(hash: Key -> nat, slots: seq<Slot>, k: Key)
    requires |slots| > 0
    ensures Missed(hash, slots, k, 0) && AllProbesLive(hash, slots, k, 0)
  {
  }

  /** What one probe learns about the key it looks for. */
  lemma Visit(hash: Key -> nat, slots: seq<Slot>, m: map<Key, Info>, k: Key, p: nat)
    requires Represents(hash, slots, m) && p < |slots| && Missed(hash, slots, k, p)
    ensures var s := slots[SlotIndex(hash(k), p, |slots|)];
            && (Holds(s, k) <==> s.state == hash(k) && s.key == k)
            && (s.state != EMPTY && !Holds(s, k) ==> Missed(hash, slots, k, p + 1))
            && (AllProbesLive(hash, slots, k, p) && s.state != EMPTY && s.state != TOMBSTONE ==>
                  AllProbesLive(hash, slots, k, p + 1))
  {
    hide SlotIndex, Reachable;
    assert slots[SlotIndex(hash(k), p, |slots|)] == At(hash, slots, k, p);
  }

  lemma EndSearch(hash: Key -> nat, slots: seq<Slot>, m: map<Key, Info>, k: Key, p: nat)
    requires Represents(hash, slots, m) && p <= |slots| && Missed(hash, slots, k, p)
    requires p == |slots| || slots[SlotIndex(hash(k), p, |slots|)].state == EMPTY
    ensures k !in m
  {
    SearchComplete(hash, slots, m, k, p);
  }

  lemma InsertFound(hash: Key -> nat, slots: seq<Slot>, m: map<Key, Info>, k: Key, info: Info, at: nat, p: nat)
    requires Represents(hash, slots, m) && k !in m && at <= p <= |slots| && at < |slots|
    requires Missed(hash, slots, k, p)
    requires var s := slots[SlotIndex(hash(k), at, |slots|)]; s.state == EMPTY || s.state == TOMBSTONE
    ensures Represents(hash, slots[SlotIndex(hash(k), at, |slots|) := Slot(hash(k), k, info)], m[k := info])
    ensures |m| < |slots|
  {
    InsertKeeps(hash, slots, m, k, info, at);
    FullIff(hash, slots, m);
    hide Represents;
    assert !Live(slots[SlotIndex(hash(k), at, |slots|)]);
  }

  /** The probes of any key visit every slot. */
  lemma AllLive(hash: Key -> nat, slots: seq<Slot>, k: Key)
    requires AllProbesLive(hash, slots, k, |slots|)
    ensures forall j :: 0 <= j < |slots| ==> Live(slots[j])
  {
    forall j | 0 <= j < |slots| ensures Live(slots[j]) {
      var q := ProbeOf(hash(k), j, |slots|);
      assert At(hash, slots, k, q) == slots[j];
    }
  }
}

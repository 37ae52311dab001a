/** The client side of an aggregate capture: decoding the written slots, merging the slots
    that share a key, and cross-checking the totals.
 */
module AggregateInventory {
  import opened Common
  import opened Lex
  import opened Sorting
  import opened Utf8
  import T = AggregateTable

  datatype Activity = Kernel | Memcpy | Memset

  datatype MemcpyKind = UnknownKind | HostToDevice | DeviceToHost | DeviceToDevice | HostToHost | PeerToPeer

  const UNKNOWN_VALUE: nat := 0xFFFF_FFFF

  /** What identifies a group after decoding. */
  datatype GroupKey = GroupKey(activity: Activity, name: Option<seq<Byte>>, device: Option<nat>,
                               memcpyKind: Option<MemcpyKind>)

  datatype Group = Group(key: GroupKey, nameComplete: Option<bool>, count: nat, duration: nat,
                         least: nat, greatest: nat, bytes: Option<nat>)

  datatype DecodeError = ZeroCount | InconsistentDurations | UnsupportedKind | BadName | EmptyKernelName

  datatype MergeError = CountOverflow | DurationOverflow | BytesOverflow | InconsistentBytes

  datatype Result<+V, +E> = Ok(value: V) | Err(error: E)

  // Decoding

  function SemanticKind(kind: nat): MemcpyKind {
    match kind
    case 1 => HostToDevice
    case 2 => DeviceToHost
    case 3 => DeviceToDevice
    case 4 => HostToHost
    case 5 => PeerToPeer
    case _ => UnknownKind
  }

  function ActivityOf(kind: nat): (a: Option<Activity>) {
    match kind
    case 3 => Some(Kernel)
    case 5 => Some(Memcpy)
    case 7 => Some(Memset)
    case _ => None
  }

  /** The decoded form of a stored key of a supported kind. */
  function Decoded(k: T.Key): (g: GroupKey)
    requires ActivityOf(k.kind).Some?
  {
    var activity := ActivityOf(k.kind).value;
    GroupKey(activity,
             if activity == Kernel then Some(k.name) else None,
             if k.device == UNKNOWN_VALUE then None else Some(k.device),
             if activity == Memcpy then Some(SemanticKind(k.memcpyKind)) else None)
  }

  /** Decodes one written slot, with the checks in their order. */
  function DecodeRecord(s: T.Slot): (r: Result<Group, DecodeError>) {
    if s.count == 0 then Err(ZeroCount)
    else if s.least > s.greatest || s.duration / s.count < s.least || s.duration / s.count > s.greatest
    then Err(InconsistentDurations)
    else if ActivityOf(s.key.kind).None? then Err(UnsupportedKind)
    else if !IsUtf8(s.key.name) then Err(BadName)
    else if s.key.kind == 3 && s.key.name == [] then Err(EmptyKernelName)
    else
      var key := Decoded(s.key);
      Ok(Group(key, if key.activity == Kernel then Some(|s.key.name| + 1 < NAME_LENGTH) else None,
               s.count, s.duration, s.least, s.greatest,
               if key.activity == Kernel then None else Some(s.bytes)))
  }

  /** The record kinds of kernels, copies and sets and the directions of copies, as numbered on the wire; what the
      number of an unknown device means; and which names are whole. */
  lemma DecodedMeans(k: T.Key)
    ensures ActivityOf(k.kind) == Some(Kernel) <==> k.kind == 3
    ensures ActivityOf(k.kind) == Some(Memcpy) <==> k.kind == 5
    ensures ActivityOf(k.kind) == Some(Memset) <==> k.kind == 7
    ensures ActivityOf(k.kind).Some? ==>
              var g := Decoded(k);
              && (g.name == if k.kind == 3 then Some(k.name) else None)
              && (g.device == if k.device == 0xFFFF_FFFF then None else Some(k.device))
              && (g.memcpyKind.Some? <==> k.kind == 5)
              && (k.kind == 5 ==>
                    && (g.memcpyKind == Some(HostToDevice) <==> k.memcpyKind == 1)
                    && (g.memcpyKind == Some(DeviceToHost) <==> k.memcpyKind == 2)
                    && (g.memcpyKind == Some(DeviceToDevice) <==> k.memcpyKind == 3)
                    && (g.memcpyKind == Some(HostToHost) <==> k.memcpyKind == 4)
                    && (g.memcpyKind == Some(PeerToPeer) <==> k.memcpyKind == 5))
  {
  }

  /** A written slot decodes if and only if it has a count, its mean lies between its bounds, its kind is known, its
      name is UTF-8 and a kernel has one; the group carries the slot's numbers. */
  lemma DecodeIff(s: T.Slot)
    ensures DecodeRecord(s).Ok?
            <==> && s.count > 0 && s.least <= s.duration / s.count <= s.greatest
                 && ActivityOf(s.key.kind).Some? && IsUtf8(s.key.name) && (s.key.kind == 3 ==> s.key.name != [])
    ensures DecodeRecord(s).Ok? ==>
              var g := DecodeRecord(s).value;
              && g.key == Decoded(s.key) && g.count == s.count && g.duration == s.duration
              && g.least == s.least && g.greatest == s.greatest
              && (g.bytes == if s.key.kind == 3 then None else Some(s.bytes))
  {
    hide IsUtf8;
  }

  /** A kernel's name is reported whole only if the activity's name was stored whole, and always if it is shorter
      than 127 bytes. */
  lemma WholeNames(c: T.Call, s: T.Slot)
    requires c.kind == 3 && s.key == T.KeyOf(c) && DecodeRecord(s).Ok?
    ensures var g := DecodeRecord(s).value;
      g.key.name == Some(CutName(c.name)) && (g.nameComplete == Some(true) <==> |c.name| < NAME_LENGTH - 1)
  {
    hide IsUtf8;
  }

  function Writable(s: T.Slot): bool { s.state >= 2 }

  /** The slots a capture writes: the published ones, in table order. */
  function Written(slots: seq<T.Slot>): (w: seq<T.Slot>) { Filter(Writable, slots) }

  // The order that groups are sorted by

  function ActivityRank(a: Activity): nat {
    match a case Kernel => 0 case Memcpy => 1 case Memset => 2
  }

  function MemcpyRank(k: Option<MemcpyKind>): nat {
    match k
    case None => 0
    case Some(UnknownKind) => 1
    case Some(HostToDevice) => 2
    case Some(DeviceToHost) => 3
    case Some(DeviceToDevice) => 4
    case Some(HostToHost) => 5
    case Some(PeerToPeer) => 6
  }

  function DeviceRank(d: Option<nat>): nat { if d.None? then 0 else d.value + 1 }

  function CompareName(a: Option<seq<Byte>>, b: Option<seq<Byte>>): int {
    match (a, b)
    case (None, None) => 0
    case (None, Some(_)) => -1
    case (Some(_), None) => 1
    case (Some(x), Some(y)) => Compare(x, y)
  }

  function Then(first: int, second: int): int { if first != 0 then first else second }

  function CompareKey(a: GroupKey, b: GroupKey): (c: int) {
    Then(CompareNat(ActivityRank(a.activity), ActivityRank(b.activity)),
         Then(CompareName(a.name, b.name),
              Then(CompareNat(DeviceRank(a.device), DeviceRank(b.device)),
                   CompareNat(MemcpyRank(a.memcpyKind), MemcpyRank(b.memcpyKind)))))
  }

  predicate InOrder(a: Group, b: Group) { CompareKey(a.key, b.key) <= 0 }

  lemma NameOrder(a: Option<seq<Byte>>, b: Option<seq<Byte>>, c: Option<seq<Byte>>)
    ensures CompareName(a, b) == 0 <==> a == b
    ensures CompareName(a, b) <= 0 || CompareName(b, a) <= 0
    ensures CompareName(a, b) <= 0 && CompareName(b, c) <= 0 ==> CompareName(a, c) <= 0
    ensures CompareName(a, b) <= 0 && CompareName(b, a) <= 0 ==> a == b
  {
    if a.Some? && b.Some? {
      Order(a.value, b.value, if c.Some? then c.value else []);
    }
  }

  /** The comparison is a total order on keys. */
  lemma KeyOrder(a: GroupKey, b: GroupKey, c: GroupKey)
    ensures CompareKey(a, b) == 0 <==> a == b
    ensures CompareKey(a, b) <= 0 || CompareKey(b, a) <= 0
    ensures CompareKey(a, b) <= 0 && CompareKey(b, c) <= 0 ==> CompareKey(a, c) <= 0
    ensures CompareKey(a, b) <= 0 && CompareKey(b, a) <= 0 ==> a == b
  {
    hide Compare, CompareName;
    NameOrder(a.name, b.name, c.name);
    NameOrder(b.name, a.name, c.name);
    NameOrder(b.name, c.name, a.name);
    NameOrder(c.name, b.name, a.name);
    NameOrder(a.name, c.name, b.name);
  }

  /** Kernels come before copies and copies before sets; then the names decide, byte by byte; then an unknown device
      comes before the known ones in their order; then the direction. */
  lemma GroupOrderMeans(a: GroupKey, b: GroupKey)
    ensures a.activity == Kernel && b.activity != Kernel ==> CompareKey(a, b) < 0
    ensures a.activity == Memcpy && b.activity == Memset ==> CompareKey(a, b) < 0
    ensures (a.activity == b.activity && a.name.Some? && b.name.Some?
             && exists i: nat :: LessAt(a.name.value, b.name.value, i)) ==> CompareKey(a, b) < 0
    ensures a.activity == b.activity && a.name == b.name && a.device.None? && b.device.Some? ==> CompareKey(a, b) < 0
    ensures (a.activity == b.activity && a.name == b.name && a.device.Some? && b.device.Some?
             && a.device.value < b.device.value) ==> CompareKey(a, b) < 0
  {
    hide Compare;
    NameOrder(a.name, b.name, a.name);
    if a.name.Some? && b.name.Some? { OrderMeans(a.name.value, b.name.value); }
  }

  lemma GroupsPreordered()
    ensures Preorder(InOrder)
  {
    forall x: Group, y: Group ensures InOrder(x, y) || InOrder(y, x) {
      KeyOrder(x.key, y.key, x.key);
    }
    forall x: Group, y: Group, z: Group | InOrder(x, y) && InOrder(y, z) ensures InOrder(x, z) {
      KeyOrder(x.key, y.key, z.key);
    }
  }

  // Merging

  /** Adds a group to the previous one of the same key. */
  function Combine(a: Group, g: Group): (r: Result<Group, MergeError>) {
    if a.count + g.count >= U64 then Err(CountOverflow)
    else if a.duration + g.duration >= U64 then Err(DurationOverflow)
    else if a.bytes.Some? != g.bytes.Some? then Err(InconsistentBytes)
    else if a.bytes.Some? && a.bytes.value + g.bytes.value >= U64 then Err(BytesOverflow)
    else Ok(a.(count := a.count + g.count, duration := a.duration + g.duration,
               least := Min(a.least, g.least), greatest := Max(a.greatest, g.greatest),
               bytes := if a.bytes.Some? then Some(a.bytes.value + g.bytes.value) else None))
  }

  function MergeStep(merged: seq<Group>, g: Group): (r: Result<seq<Group>, MergeError>) {
    var n := |merged| - 1;
    if merged == [] || merged[n].key != g.key then Ok(merged + [g])
    else match Combine(merged[n], g)
      case Err(e) => Err(e)
      case Ok(c) => Ok(merged[..n] + [c])
  }

  function MergeAll(groups: seq<Group>): (r: Result<seq<Group>, MergeError>) {
    if groups == [] then Ok([])
    else match MergeAll(groups[..|groups| - 1])
      case Err(e) => Err(e)
      case Ok(merged) => MergeStep(merged, groups[|groups| - 1])
  }

  /** Sorts the groups and folds each into its predecessor when they share a key. */
  method MergeAggregateGroups(groups: seq<Group>) returns (r: Result<seq<Group>, MergeError>)
    ensures r == MergeAll(StableSort(InOrder, groups))
  {
    var sorted := StableSort(InOrder, groups);
    var merged: seq<Group> := [];
    for i := 0 to |sorted|
      invariant MergeAll(sorted[..i]) == Ok(merged)
    {
      assert sorted[..i + 1][..i] == sorted[..i];
      var group := sorted[i];
      var n := |merged| - 1;
      if merged == [] || merged[n].key != group.key {
        merged := merged + [group];
      } else {
        var combined := Combine(merged[n], group);
        if combined.Err? {
          FailureStays(sorted, i + 1);
          return Err(combined.error);
        }
        merged := merged[..n] + [combined.value];
      }
    }
    assert sorted[..|sorted|] == sorted;
    return Ok(merged);
  }

  lemma {:induction false} FailureStays(groups: seq<Group>, i: nat)
    requires i <= |groups| && MergeAll(groups[..i]).Err?
    ensures MergeAll(groups) == MergeAll(groups[..i])
    decreases |groups| - i
  {
    if i == |groups| {
      assert groups[..i] == groups;
    } else {
      assert groups[..i + 1][..i] == groups[..i];
      FailureStays(groups, i + 1);
    }
  }

  // Totals per key

  datatype Totals = Totals(count: nat, duration: nat, least: nat, greatest: nat, bytes: nat)

  const NOTHING: Totals := Totals(0, 0, U64, 0, 0)

  function Plus(t: Totals, g: Group): Totals {
    Totals(t.count + g.count, t.duration + g.duration, Min(t.least, g.least), Max(t.greatest, g.greatest),
           t.bytes + if g.bytes.Some? then g.bytes.value else 0)
  }

  function PlusIf(sel: GroupKey -> bool, t: Totals, g: Group): Totals {
    if sel(g.key) then Plus(t, g) else t
  }

  /** The fold of every group whose key is selected. */
  function TotalsOf(sel: GroupKey -> bool, groups: seq<Group>): (t: Totals) {
    if groups == [] then NOTHING
    else PlusIf(sel, TotalsOf(sel, groups[..|groups| - 1]), groups[|groups| - 1])
  }

  function Is(k: GroupKey): GroupKey -> bool { x => x == k }

  function AnyGroup(): GroupKey -> bool { _ => true }

  lemma TotalsSnoc(sel: GroupKey -> bool, groups: seq<Group>, g: Group)
    ensures TotalsOf(sel, groups + [g]) == PlusIf(sel, TotalsOf(sel, groups), g)
  {
    assert (groups + [g])[..|groups|] == groups;
  }

  lemma {:induction false} TotalsNone(sel: GroupKey -> bool, groups: seq<Group>)
    requires forall i :: 0 <= i < |groups| ==> !sel(groups[i].key)
    ensures TotalsOf(sel, groups) == NOTHING
  {
    if groups != [] { TotalsNone(sel, groups[..|groups| - 1]); }
  }

  lemma PlusCommutes(sel: GroupKey -> bool, t: Totals, g: Group, h: Group)
    ensures PlusIf(sel, PlusIf(sel, t, g), h) == PlusIf(sel, PlusIf(sel, t, h), g)
  {
  }

  lemma {:induction false} TotalsWithout(sel: GroupKey -> bool, groups: seq<Group>, i: nat)
    requires i < |groups|
    ensures TotalsOf(sel, groups) == PlusIf(sel, TotalsOf(sel, groups[..i] + groups[i + 1..]), groups[i])
  {
    hide PlusIf;
    var n := |groups| - 1;
    if i == n {
      assert groups[..i] + groups[i + 1..] == groups[..n];
    } else {
      var rest := groups[..n];
      var without := rest[..i] + rest[i + 1..];
      TotalsWithout(sel, rest, i);
      assert groups[..i] + groups[i + 1..] == without + [groups[n]];
      TotalsSnoc(sel, without, groups[n]);
      PlusCommutes(sel, TotalsOf(sel, without), groups[i], groups[n]);
    }
  }

  lemma RemoveOne(s: seq<Group>, i: nat)
    requires i < |s|
    ensures multiset(s[..i] + s[i + 1..]) == multiset(s) - multiset{s[i]}
  {
    assert s == s[..i] + [s[i]] + s[i + 1..];
  }

  /** Totals do not depend on the order of the groups. */
  lemma {:induction false} TotalsPermute(sel: GroupKey -> bool, a: seq<Group>, b: seq<Group>)
    requires multiset(a) == multiset(b)
    ensures TotalsOf(sel, a) == TotalsOf(sel, b)
    decreases |a|
  {
    hide PlusIf;
    assert |multiset(a)| == |a| && |multiset(b)| == |b|;
    if a != [] {
      var n := |a| - 1;
      assert a[n] in multiset(b);
      var i :| 0 <= i < |b| && b[i] == a[n];
      RemoveOne(a, n);
      RemoveOne(b, i);
      assert a[..n] + a[n + 1..] == a[..n];
      TotalsPermute(sel, a[..n], b[..i] + b[i + 1..]);
      TotalsWithout(sel, b, i);
    }
  }

  // What merging guarantees

  ghost predicate Strict(m: seq<Group>) {
    forall i, j :: 0 <= i < j < |m| ==> CompareKey(m[i].key, m[j].key) < 0
  }

  lemma MergeStepTotals(sel: GroupKey -> bool, merged: seq<Group>, g: Group)
    requires MergeStep(merged, g).Ok?
    ensures TotalsOf(sel, MergeStep(merged, g).value) == PlusIf(sel, TotalsOf(sel, merged), g)
  {
    var n := |merged| - 1;
    if merged == [] || merged[n].key != g.key {
      TotalsSnoc(sel, merged, g);
    } else {
      TotalsSnoc(sel, merged[..n], Combine(merged[n], g).value);
    }
  }

  lemma {:induction false} MergeKeepsTotals(sel: GroupKey -> bool, groups: seq<Group>)
    requires MergeAll(groups).Ok?
    ensures TotalsOf(sel, MergeAll(groups).value) == TotalsOf(sel, groups)
  {
    if groups != [] {
      var n := |groups| - 1;
      MergeKeepsTotals(sel, groups[..n]);
      MergeStepTotals(sel, MergeAll(groups[..n]).value, groups[n]);
    }
  }

  lemma MergeStepStrict(m: seq<Group>, g: Group)
    requires Strict(m) && MergeStep(m, g).Ok?
    requires m != [] ==> CompareKey(m[|m| - 1].key, g.key) <= 0
    ensures var m' := MergeStep(m, g).value;
            Strict(m') && m' != [] && m'[|m'| - 1].key == g.key
  {
    hide CompareKey;
    var n := |m| - 1;
    if m != [] && m[n].key != g.key {
      forall i | 0 <= i < |m| ensures CompareKey(m[i].key, g.key) < 0 {
        BelowLast(m[i].key, m[n].key, g.key, i == n);
      }
    }
  }

  /** Merging sorted groups leaves one group per key, in strictly increasing key order. */
  lemma {:induction false} MergeStrict(groups: seq<Group>)
    requires Sorted(InOrder, groups) && MergeAll(groups).Ok?
    ensures var m := MergeAll(groups).value;
            && Strict(m) && (m == [] <==> groups == [])
            && (m != [] ==> m[|m| - 1].key == groups[|groups| - 1].key)
  {
    hide CompareKey, MergeStep, Strict;
    if groups == [] {
      assert Strict([]) by { StrictEmpty(); }
    } else {
      var n := |groups| - 1;
      MergeStrict(groups[..n]);
      if n > 0 { assert InOrder(groups[n - 1], groups[n]); }
      MergeStepStrict(MergeAll(groups[..n]).value, groups[n]);
    }
  }

  lemma StrictEmpty()
    ensures Strict([])
  {
  }

  lemma BelowLast(a: GroupKey, last: GroupKey, next: GroupKey, same: bool)
    requires if same then a == last else CompareKey(a, last) < 0
    requires CompareKey(last, next) <= 0
    ensures last != next ==> CompareKey(a, next) < 0
  {
    hide CompareKey;
    KeyOrder(a, last, next);
    KeyOrder(last, next, a);
    KeyOrder(next, last, a);
    KeyOrder(a, next, last);
  }

  /** What decoding establishes of a group: byte totals exactly for copies and sets, a name
      flag that its key determines, and 64-bit counters. */
  ghost predicate WellDecoded(g: Group) {
    && (g.bytes.Some? <==> g.key.activity != Kernel)
    && (g.key.activity == Kernel <==> g.key.name.Some?)
    && g.nameComplete == (if g.key.name.Some? then Some(|g.key.name.value| + 1 < NAME_LENGTH) else None)
    && 0 < g.count < U64 && g.duration < U64 && g.least < U64 && g.greatest < U64
    && (g.bytes.Some? ==> g.bytes.value < U64)
  }

  ghost predicate AllWellDecoded(groups: seq<Group>) {
    forall i :: 0 <= i < |groups| ==> WellDecoded(groups[i])
  }

  predicate Fits(t: Totals) { t.count < U64 && t.duration < U64 && t.bytes < U64 }

  /** In a strictly ordered list the totals of a key are those of its only group. */
  lemma TotalsOfLast(m: seq<Group>)
    requires Strict(m) && m != []
    ensures TotalsOf(Is(m[|m| - 1].key), m) == Plus(NOTHING, m[|m| - 1])
  {
    var n := |m| - 1;
    forall i | 0 <= i < n ensures m[i].key != m[n].key {
      KeyOrder(m[i].key, m[n].key, m[n].key);
    }
    TotalsNone(Is(m[n].key), m[..n]);
  }

  lemma MergeStepFits(m: seq<Group>, g: Group)
    requires Strict(m) && AllWellDecoded(m) && WellDecoded(g)
    ensures MergeStep(m, g).Ok? <==> Fits(PlusIf(Is(g.key), TotalsOf(Is(g.key), m), g))
                                     || m == [] || m[|m| - 1].key != g.key
    ensures MergeStep(m, g).Ok? ==> AllWellDecoded(MergeStep(m, g).value)
  {
    hide TotalsOf, Strict;
    if m != [] && m[|m| - 1].key == g.key {
      TotalsOfLast(m);
      CombineFits(m[|m| - 1], g);
      hide Combine, WellDecoded, Plus;
    } else {
      hide WellDecoded, Combine;
    }
  }

  lemma CombineFits(a: Group, g: Group)
    requires WellDecoded(a) && WellDecoded(g) && a.key == g.key
    ensures Combine(a, g).Ok? <==> Fits(Plus(Plus(NOTHING, a), g))
    ensures Combine(a, g).Ok? ==> WellDecoded(Combine(a, g).value)
  {
  }

  lemma TotalsAbsent(m: seq<Group>, g: Group)
    requires Strict(m) && (m != [] ==> CompareKey(m[|m| - 1].key, g.key) < 0)
    ensures TotalsOf(Is(g.key), m) == NOTHING
  {
    forall i | 0 <= i < |m| ensures m[i].key != g.key {
      BelowLast(m[i].key, m[|m| - 1].key, g.key, i == |m| - 1);
      KeyOrder(m[i].key, g.key, g.key);
      KeyOrder(m[|m| - 1].key, g.key, g.key);
    }
    TotalsNone(Is(g.key), m);
  }

  ghost predicate AllFit(groups: seq<Group>) {
    forall k :: Fits(TotalsOf(Is(k), groups))
  }

  /** Merging sorted decoded groups fails exactly when some key's totals pass 64 bits. */
  lemma {:induction false} MergeOkIff(groups: seq<Group>)
    requires Sorted(InOrder, groups) && AllWellDecoded(groups)
    ensures MergeAll(groups).Ok? <==> AllFit(groups)
    ensures MergeAll(groups).Ok? ==> AllWellDecoded(MergeAll(groups).value)
  {
    hide CompareKey, MergeStep, WellDecoded, Strict, Plus, Is;
    if groups != [] {
      var n := |groups| - 1;
      var g := groups[n];
      MergeOkIff(groups[..n]);
      PrefixFits(groups);
      if MergeAll(groups[..n]).Ok? {
        var m := MergeAll(groups[..n]).value;
        MergeStrict(groups[..n]);
        if n > 0 { assert InOrder(groups[n - 1], g); }
        MergeStepFits(m, g);
        MergeKeepsTotals(Is(g.key), groups[..n]);
        assert TotalsOf(Is(g.key), groups) == PlusIf(Is(g.key), TotalsOf(Is(g.key), m), g);
        if m == [] || m[|m| - 1].key != g.key { NewKeyFits(m, g); }
        LastFits(groups);
      }
    }
  }

  lemma PrefixFits(groups: seq<Group>)
    requires groups != []
    ensures AllFit(groups) ==> AllFit(groups[..|groups| - 1])
  {
    var n := |groups| - 1;
    forall k ensures Fits(TotalsOf(Is(k), groups)) ==> Fits(TotalsOf(Is(k), groups[..n])) { }
  }

  lemma LastFits(groups: seq<Group>)
    requires groups != [] && AllFit(groups[..|groups| - 1])
    ensures AllFit(groups) <==> Fits(TotalsOf(Is(groups[|groups| - 1].key), groups))
  {
    var n := |groups| - 1;
    forall k | k != groups[n].key ensures Fits(TotalsOf(Is(k), groups)) {
      assert TotalsOf(Is(k), groups) == TotalsOf(Is(k), groups[..n]);
    }
  }

  lemma NewKeyFits(m: seq<Group>, g: Group)
    requires Strict(m) && WellDecoded(g)
    requires m != [] ==> CompareKey(m[|m| - 1].key, g.key) <= 0 && m[|m| - 1].key != g.key
    ensures Fits(PlusIf(Is(g.key), TotalsOf(Is(g.key), m), g))
  {
    if m != [] { KeyOrder(m[|m| - 1].key, g.key, g.key); }
    TotalsAbsent(m, g);
  }

  lemma SameTotals(g: Group, h: Group)
    requires g.key == h.key && WellDecoded(g) && WellDecoded(h)
    ensures Plus(NOTHING, g) != NOTHING
    ensures Plus(NOTHING, g) == Plus(NOTHING, h) ==> g == h
  {
  }

  /** Per-key totals determine a strictly ordered list of decoded groups. */
  lemma TotalsDetermine(a: seq<Group>, b: seq<Group>, g: Group)
    requires Strict(a) && Strict(b) && AllWellDecoded(a) && AllWellDecoded(b)
    requires forall k :: TotalsOf(Is(k), a) == TotalsOf(Is(k), b)
    requires g in a
    ensures g in b
  {
    hide Strict, TotalsOf, Plus, WellDecoded, CompareKey;
    var i :| 0 <= i < |a| && a[i] == g;
    TotalsOfMember(a, i);
    if forall j :: 0 <= j < |b| ==> b[j].key != g.key {
      TotalsNone(Is(g.key), b);
      SameTotals(g, g);
      assert false;
    } else {
      var j :| 0 <= j < |b| && b[j].key == g.key;
      TotalsOfMember(b, j);
      SameTotals(b[j], g);
    }
  }

  lemma TotalsOfMember(m: seq<Group>, i: nat)
    requires Strict(m) && i < |m|
    ensures TotalsOf(Is(m[i].key), m) == Plus(NOTHING, m[i])
  {
    var rest := m[..i] + m[i + 1..];
    forall j | 0 <= j < |rest| ensures rest[j].key != m[i].key {
      KeyOrder(rest[j].key, m[i].key, m[i].key);
      KeyOrder(m[i].key, rest[j].key, m[i].key);
    }
    TotalsNone(Is(m[i].key), rest);
    TotalsWithout(Is(m[i].key), m, i);
  }

  lemma {:induction false} StrictUnique(a: seq<Group>, b: seq<Group>)
    requires Strict(a) && Strict(b) && forall g :: g in a <==> g in b
    ensures a == b
  {
    hide CompareKey;
    assert a != [] ==> a[0] in a && a[0] in b;
    assert b != [] ==> b[0] in b && b[0] in a;
    if a != [] {
      HeadsAgree(a, b);
      HeadNotInTail(a);
      HeadNotInTail(b);
      assert a == [a[0]] + a[1..] && b == [b[0]] + b[1..];
      forall g ensures g in a[1..] <==> g in b[1..] {
        assert g in a <==> g in b;
      }
      StrictUnique(a[1..], b[1..]);
    }
  }

  lemma HeadNotInTail(m: seq<Group>)
    requires Strict(m) && m != []
    ensures m[0] !in m[1..]
  {
    hide CompareKey;
    KeyOrder(m[0].key, m[0].key, m[0].key);
  }

  lemma HeadsAgree(a: seq<Group>, b: seq<Group>)
    requires Strict(a) && Strict(b) && a != [] && b != [] && a[0] in b && b[0] in a
    ensures a[0] == b[0]
  {
    hide CompareKey;
    var i :| 0 <= i < |b| && b[i] == a[0];
    var j :| 0 <= j < |a| && a[j] == b[0];
    if i > 0 {
      KeyOrder(a[0].key, b[0].key, a[0].key);
      KeyOrder(b[0].key, a[0].key, b[0].key);
      assert CompareKey(b[0].key, a[0].key) < 0;
    }
  }

  /** The inventory does not depend on the order in which the slots arrive. */
  lemma MergeOrderIndependent(a: seq<Group>, b: seq<Group>)
    requires AllWellDecoded(a) && multiset(a) == multiset(b)
    ensures var r, r' := MergeAll(StableSort(InOrder, a)), MergeAll(StableSort(InOrder, b));
            (r.Ok? <==> r'.Ok?) && (r.Ok? ==> r == r')
  {
    hide CompareKey, WellDecoded, Strict, Plus, Is, MergeAll;
    var sa, sb := StableSort(InOrder, a), StableSort(InOrder, b);
    GroupsPreordered();
    SortSorts(InOrder, a); SortSorts(InOrder, b);
    SortPermutes(InOrder, a); SortPermutes(InOrder, b);
    SortedWellDecoded(a, sa);
    assert multiset(b) == multiset(a);
    SortedWellDecoded(a, sb);
    forall k ensures TotalsOf(Is(k), sa) == TotalsOf(Is(k), sb) { TotalsPermute(Is(k), sa, sb); }
    MergeOkIff(sa);
    MergeOkIff(sb);
    if MergeAll(sa).Ok? {
      var ma, mb := MergeAll(sa).value, MergeAll(sb).value;
      MergeStrict(sa);
      MergeStrict(sb);
      forall k ensures TotalsOf(Is(k), ma) == TotalsOf(Is(k), mb) {
        MergeKeepsTotals(Is(k), sa);
        MergeKeepsTotals(Is(k), sb);
      }
      forall g ensures g in ma <==> g in mb {
        if g in ma { TotalsDetermine(ma, mb, g); }
        if g in mb { TotalsDetermine(mb, ma, g); }
      }
      StrictUnique(ma, mb);
    }
  }

  lemma SortedWellDecoded(a: seq<Group>, s: seq<Group>)
    requires AllWellDecoded(a) && multiset(s) == multiset(a)
    ensures AllWellDecoded(s)
  {
    forall i | 0 <= i < |s| ensures WellDecoded(s[i]) {
      assert s[i] in multiset(s);
      assert s[i] in a;
    }
  }

  // From the table to the inventory

  function DecodeAll(written: seq<T.Slot>): (r: Result<seq<Group>, DecodeError>) {
    if written == [] then Ok([])
    else match DecodeRecord(written[0])
      case Err(e) => Err(e)
      case Ok(g) =>
        match DecodeAll(written[1..])
        case Err(e) => Err(e)
        case Ok(rest) => Ok([g] + rest)
  }

  /** The calls whose slots the client can decode. */
  predicate Nameable(c: T.Call) {
    && ActivityOf(c.kind).Some? && IsUtf8(CutName(c.name))
    && (c.kind == 3 ==> c.name != [] && c.bytes == 0)
  }

  lemma TimesMonotone(a: nat, b: nat, c: nat)
    requires a <= b
    ensures a * c <= b * c
  {
    assert (b - a) * c >= 0 && (b - a) * c == b * c - a * c;
  }

  lemma MeanBetween(total: nat, count: nat, low: nat, high: nat)
    requires count > 0 && low * count <= total <= high * count
    ensures low <= total / count <= high
  {
    var q := total / count;
    assert q * count <= total < q * count + count;
    if q < low {
      TimesMonotone(q + 1, low, count);
    }
    if q > high {
      TimesMonotone(high + 1, q, count);
    }
  }

  lemma RecordDecodes(s: T.Slot)
    requires s.count > 0 && s.least <= s.greatest && s.least <= s.duration / s.count <= s.greatest
    requires ActivityOf(s.key.kind).Some? && IsUtf8(s.key.name) && (s.key.kind == 3 ==> s.key.name != [])
    requires T.Fits64(s) && s.least < U64 && s.greatest < U64
    ensures DecodeRecord(s).Ok? && WellDecoded(DecodeRecord(s).value)
    ensures DecodeRecord(s).value.key == Decoded(s.key)
  {
    hide IsUtf8;
  }

  /** Every slot of a quiescent capture of nameable calls decodes to a well-formed group. */
  lemma SlotDecodes(hash: T.Key -> nat, t: T.Table, j: nat)
    requires T.Good(hash, t) && T.Quiescent(t) && j < |t.slots| && t.slots[j].state >= 2
    requires forall i :: 0 <= i < |t.calls| ==> Nameable(t.calls[i].call)
    ensures ActivityOf(t.slots[j].key.kind).Some?
    ensures DecodeRecord(t.slots[j]).Ok? && WellDecoded(DecodeRecord(t.slots[j]).value)
    ensures DecodeRecord(t.slots[j]).value.key == Decoded(t.slots[j].key)
  {
    hide IsUtf8, DecodeRecord, WellDecoded;
    var s := t.slots[j];
    var low, high := T.SlotBounds(hash, t, j);
    T.WrittenSlots(hash, t, j);
    MeanBetween(s.duration, s.count, s.least, s.greatest);
    assert T.SlotOk(hash, s, j, t.calls);
    assert T.CallOk(hash, t.slots, t.calls[low]) && T.CallOk(hash, t.slots, t.calls[high]);
    hide T.Good, T.SlotOk;
    assert Nameable(t.calls[low].call);
    RecordDecodes(s);
  }

  function AsGroup(s: T.Slot): (g: Group) {
    if DecodeRecord(s).Ok? then DecodeRecord(s).value
    else Group(GroupKey(Memset, None, None, None), None, 0, 0, 0, 0, None)
  }

  lemma {:induction false} DecodeAllOk(written: seq<T.Slot>)
    requires forall i :: 0 <= i < |written| ==> DecodeRecord(written[i]).Ok?
    ensures DecodeAll(written) == Ok(Map(AsGroup, written))
  {
    hide DecodeRecord;
    if written != [] {
      DecodeAllOk(written[1..]);
      assert Map(AsGroup, written) == [AsGroup(written[0])] + Map(AsGroup, written[1..]);
    }
  }

  /** Selecting a stored key by its decoded form. */
  ghost function Raw(sel: GroupKey -> bool): T.Key -> bool {
    (k: T.Key) => ActivityOf(k.kind).Some? && sel(Decoded(k))
  }

  /** A slot whose group carries the slot's own numbers. */
  ghost predicate Decodes(s: T.Slot) {
    && ActivityOf(s.key.kind).Some? && DecodeRecord(s).Ok?
    && var g := DecodeRecord(s).value;
       && g.key == Decoded(s.key) && g.count == s.count && g.duration == s.duration
       && g.least == s.least && g.greatest == s.greatest
       && s.bytes == if g.bytes.Some? then g.bytes.value else 0
  }

  lemma TotalsFront(sel: GroupKey -> bool, g: Group, rest: seq<Group>)
    ensures TotalsOf(sel, [g] + rest) == PlusIf(sel, TotalsOf(sel, rest), g)
  {
    var groups := [g] + rest;
    TotalsWithout(sel, groups, 0);
    assert groups[..0] + groups[1..] == rest;
  }

  ghost function GroupsFrom(slots: seq<T.Slot>, j: nat): (groups: seq<Group>)
    requires j <= |slots|
  {
    Map(AsGroup, Written(slots[j..]))
  }

  lemma GroupsStep(slots: seq<T.Slot>, j: nat)
    requires j < |slots|
    ensures GroupsFrom(slots, j) == (if slots[j].state >= 2 then [AsGroup(slots[j])] else [])
                                    + GroupsFrom(slots, j + 1)
  {
    hide AsGroup;
    assert slots[j..][1..] == slots[j + 1..] && slots[j..][0] == slots[j];
    var rest := Written(slots[j + 1..]);
    assert Map(AsGroup, [slots[j]] + rest) == [AsGroup(slots[j])] + Map(AsGroup, rest);
  }

  /** The totals of the decoded groups are the sums over the table's slots. */
  lemma {:induction false} GroupsSum(sel: GroupKey -> bool, slots: seq<T.Slot>, j: nat)
    requires j <= |slots|
    requires forall i :: 0 <= i < |slots| && slots[i].state >= 2 ==> Decodes(slots[i])
    ensures var t := TotalsOf(sel, GroupsFrom(slots, j));
            && t.count == T.SlotSum(T.OfCount, Raw(sel), slots, j)
            && t.duration == T.SlotSum(T.OfDuration, Raw(sel), slots, j)
            && t.bytes == T.SlotSum(T.OfBytes, Raw(sel), slots, j)
    decreases |slots| - j
  {
    hide DecodeRecord, GroupsFrom, TotalsOf;
    if j == |slots| {
      GroupsEnd(sel, slots);
    } else {
      GroupsSum(sel, slots, j + 1);
      GroupsStep(slots, j);
      if slots[j].state >= 2 {
        assert Decodes(slots[j]);
        TotalsFront(sel, AsGroup(slots[j]), GroupsFrom(slots, j + 1));
      } else {
        assert [] + GroupsFrom(slots, j + 1) == GroupsFrom(slots, j + 1);
      }
    }
  }

  lemma GroupsEnd(sel: GroupKey -> bool, slots: seq<T.Slot>)
    ensures TotalsOf(sel, GroupsFrom(slots, |slots|)) == NOTHING
  {
    assert slots[|slots|..] == [];
  }

  ghost predicate SlotsBounded(sel: GroupKey -> bool, slots: seq<T.Slot>, j: nat, low: nat, high: nat) {
    forall i :: j <= i < |slots| && slots[i].state >= 2 && Raw(sel)(slots[i].key) ==>
      low <= slots[i].least && slots[i].greatest <= high
  }

  /** Bounds hold for the merged extremes exactly when they hold for every slot. */
  lemma {:induction false} GroupsBounded(sel: GroupKey -> bool, slots: seq<T.Slot>, j: nat, low: nat, high: nat)
    requires j <= |slots| && low <= U64
    requires forall i :: 0 <= i < |slots| && slots[i].state >= 2 ==> Decodes(slots[i])
    ensures var t := TotalsOf(sel, GroupsFrom(slots, j));
            low <= t.least && t.greatest <= high <==> SlotsBounded(sel, slots, j, low, high)
    decreases |slots| - j
  {
    hide DecodeRecord, GroupsFrom, TotalsOf;
    if j == |slots| {
      GroupsEnd(sel, slots);
    } else {
      GroupsBounded(sel, slots, j + 1, low, high);
      GroupsStep(slots, j);
      if slots[j].state >= 2 {
        assert Decodes(slots[j]);
        TotalsFront(sel, AsGroup(slots[j]), GroupsFrom(slots, j + 1));
      } else {
        assert [] + GroupsFrom(slots, j + 1) == GroupsFrom(slots, j + 1);
      }
    }
  }

  lemma {:induction false} WrittenCount(slots: seq<T.Slot>)
    ensures |Written(slots)| == T.Published(slots) <= |slots|
  {
    if slots != [] { WrittenCount(slots[1..]); }
  }

  /** Kernel activities carry no bytes, so neither do their slots. */
  lemma KernelBytes(hash: T.Key -> nat, t: T.Table, j: nat)
    requires T.Good(hash, t) && j < |t.slots| && t.slots[j].state >= 2 && t.slots[j].key.kind == 3
    requires forall i :: 0 <= i < |t.calls| ==> Nameable(t.calls[i].call)
    ensures t.slots[j].bytes == 0
  {
    hide IsUtf8;
    forall i | 0 <= i < |t.calls| ensures T.Weight(T.Bytes(j), t.calls[i]) == 0 {
      assert T.CallOk(hash, t.slots, t.calls[i]) && Nameable(t.calls[i].call);
    }
    assert T.SlotOk(hash, t.slots[j], j, t.calls);
    T.SumZero(T.Bytes(j), t.calls);
  }

  lemma AllDecode(hash: T.Key -> nat, t: T.Table)
    requires T.Good(hash, t) && T.Quiescent(t)
    requires forall i :: 0 <= i < |t.calls| ==> Nameable(t.calls[i].call)
    ensures forall j :: 0 <= j < |t.slots| && t.slots[j].state >= 2 ==>
              Decodes(t.slots[j]) && WellDecoded(AsGroup(t.slots[j]))
  {
    hide T.Good, IsUtf8, WellDecoded;
    forall j | 0 <= j < |t.slots| && t.slots[j].state >= 2
      ensures Decodes(t.slots[j]) && WellDecoded(AsGroup(t.slots[j]))
    {
      SlotDecodes(hash, t, j);
      if t.slots[j].key.kind == 3 { KernelBytes(hash, t, j); }
    }
  }

  /** The groups that the client decodes from a table. */
  ghost function Decoding(t: T.Table): (groups: seq<Group>) { GroupsFrom(t.slots, 0) }

  /** A run that ends with nothing in flight, no overflow and no drop, over nameable calls. */
  ghost predicate CleanRun(hash: T.Key -> nat, t0: T.Table, capacity: nat, steps: seq<T.Step>, t: T.Table) {
    && T.Reaches(hash, t0, capacity, steps, t) && T.Quiescent(t) && T.NoOverflow(t) && t.dropped == 0
    && (forall i :: 0 <= i < |t.calls| ==> Nameable(t.calls[i].call))
  }

  /** Every written slot passes the client's checks. */
  lemma CleanDecodes(hash: T.Key -> nat, t0: T.Table, capacity: nat, steps: seq<T.Step>, t: T.Table)
    requires CleanRun(hash, t0, capacity, steps, t)
    ensures DecodeAll(Written(t.slots)) == Ok(Decoding(t)) && AllWellDecoded(Decoding(t))
    ensures forall j :: 0 <= j < |t.slots| && t.slots[j].state >= 2 ==> Decodes(t.slots[j])
  {
    T.ReachedGood(hash, t0, capacity, steps, t);
    AllDecode(hash, t);
    hide DecodeRecord, WellDecoded, IsUtf8, T.Reaches, T.Good;
    var written := Written(t.slots);
    assert t.slots[0..] == t.slots;
    forall i | 0 <= i < |written| ensures DecodeRecord(written[i]).Ok? && WellDecoded(AsGroup(written[i])) {
      FilterMember(Writable, t.slots, written[i]);
      var j :| 0 <= j < |t.slots| && t.slots[j] == written[i];
      assert Decodes(t.slots[j]);
    }
    DecodeAllOk(written);
  }

  /** The fold over all activities of the selected groups that the run recorded. */
  ghost function ActivityTotal(q: T.Quantity, sel: GroupKey -> bool, t: T.Table): (n: nat) {
    T.CallSum(q, Raw(sel), t.calls)
  }

  /** If merging reports no overflow, every group, and every set of groups, carries exactly the
      fold over its activities, with its least and greatest duration. */
  lemma InventoryFolds(hash: T.Key -> nat, t0: T.Table, capacity: nat, steps: seq<T.Step>, t: T.Table,
                       sel: GroupKey -> bool, low: nat, high: nat)
    requires CleanRun(hash, t0, capacity, steps, t) && low <= U64
    requires MergeAll(StableSort(InOrder, Decoding(t))).Ok?
    ensures var totals := TotalsOf(sel, MergeAll(StableSort(InOrder, Decoding(t))).value);
            && totals.count == ActivityTotal(T.OfCount, sel, t)
            && totals.duration == ActivityTotal(T.OfDuration, sel, t)
            && totals.bytes == ActivityTotal(T.OfBytes, sel, t)
            && (low <= totals.least && totals.greatest <= high
                <==> forall i :: 0 <= i < |t.calls| && t.calls[i].phase.Done? && Raw(sel)(T.KeyOf(t.calls[i].call)) ==>
                       low <= t.calls[i].call.endNs - t.calls[i].call.startNs <= high)
  {
    CleanDecodes(hash, t0, capacity, steps, t);
    hide Decodes, WellDecoded, MergeAll, TotalsOf, IsUtf8;
    var groups := Decoding(t);
    MergeKeepsTotals(sel, StableSort(InOrder, groups));
    SortPermutes(InOrder, groups);
    TotalsPermute(sel, StableSort(InOrder, groups), groups);
    GroupsSum(sel, t.slots, 0);
    GroupsBounded(sel, t.slots, 0, low, high);
    T.QuiescentSums(hash, t0, capacity, steps, t, T.OfCount, Raw(sel));
    T.QuiescentSums(hash, t0, capacity, steps, t, T.OfDuration, Raw(sel));
    T.QuiescentSums(hash, t0, capacity, steps, t, T.OfBytes, Raw(sel));
    T.QuiescentExtremes(hash, t0, capacity, steps, t, Raw(sel), low);
    T.QuiescentExtremes(hash, t0, capacity, steps, t, Raw(sel), high);
  }

  lemma {:induction false} AllCounted(slots: seq<T.Slot>, calls: seq<T.CallState>)
    requires forall i :: 0 <= i < |calls| ==> Nameable(calls[i].call) && T.Settled(slots, calls[i])
    ensures T.CallSum(T.OfCount, Raw(AnyGroup()), calls) + T.Sum(T.Drops, calls) == |calls|
  {
    hide IsUtf8;
    if calls != [] {
      assert Nameable(calls[0].call) && T.Settled(slots, calls[0]);
      assert Raw(AnyGroup())(T.KeyOf(calls[0].call));
      AllCounted(slots, calls[1..]);
    }
  }

  lemma {:induction false} EverySlotCounts(slots: seq<T.Slot>, j: nat)
    requires j <= |slots| && forall i :: 0 <= i < |slots| && slots[i].state >= 2 ==> slots[i].count > 0
    ensures T.Published(slots[j..]) <= T.SlotSum(T.OfCount, T.AnyKey, slots, j)
    decreases |slots| - j
  {
    if j < |slots| {
      assert slots[j..][1..] == slots[j + 1..];
      EverySlotCounts(slots, j + 1);
    }
  }

  lemma {:induction false} CountsGrow(groups: seq<Group>, i: nat)
    requires i <= |groups|
    ensures TotalsOf(AnyGroup(), groups[..i]).count <= TotalsOf(AnyGroup(), groups).count
    decreases |groups|
  {
    if i < |groups| {
      assert groups[..|groups| - 1][..i] == groups[..i];
      CountsGrow(groups[..|groups| - 1], i);
    } else {
      assert groups[..i] == groups;
    }
  }

  /** Adds up the groups' counts; none when the sum does not fit 64 bits. */
  method GroupedActivities(groups: seq<Group>) returns (total: Option<nat>)
    ensures var sum := TotalsOf(AnyGroup(), groups).count;
            total == if sum < U64 then Some(sum) else None
  {
    var sum := 0;
    for i := 0 to |groups|
      invariant sum == TotalsOf(AnyGroup(), groups[..i]).count < U64
    {
      assert groups[..i + 1] == groups[..i] + [groups[i]];
      TotalsSnoc(AnyGroup(), groups[..i], groups[i]);
      CountsGrow(groups, i + 1);
      if sum + groups[i].count >= U64 { return None; }
      sum := sum + groups[i].count;
    }
    assert groups[..|groups|] == groups;
    return Some(sum);
  }

  /** A clean run passes every check: the payload length, the counter bounds, decoding, and
      after a merge without overflow one group per key and grouped activities == observed. */
  lemma InventoryChecksPass(hash: T.Key -> nat, t0: T.Table, capacity: nat, steps: seq<T.Step>, t: T.Table)
    requires CleanRun(hash, t0, capacity, steps, t)
    ensures |Written(t.slots)| == t.committed <= |t.slots|
    ensures t.committed <= T.SlotSum(T.OfCount, T.AnyKey, t.slots, 0) + t.dropped == |t.calls|
    ensures DecodeAll(Written(t.slots)) == Ok(Decoding(t))
    ensures var r := MergeAll(StableSort(InOrder, Decoding(t)));
            && (r.Ok? <==> AllFit(Decoding(t)))
            && (r.Ok? ==> Strict(r.value) && TotalsOf(AnyGroup(), r.value).count == |t.calls|
                          && TotalsOf(AnyGroup(), r.value).count
                             == T.SlotSum(T.OfCount, T.AnyKey, t.slots, 0) + t.dropped)
  {
    hide T.Reaches, T.Good, Nameable, T.SlotSum, T.Published, T.NoOverflow, T.Quiescent, MergeAll, TotalsOf, Strict;
    T.QuiescentCounts(hash, t0, capacity, steps, t);
    WrittenCount(t.slots);
    T.ReachedGood(hash, t0, capacity, steps, t);
    CleanCount(hash, t0, capacity, steps, t);
    CleanDecodes(hash, t0, capacity, steps, t);
    PublishedWithin(hash, t);
    MergeDecoding(t);
    if MergeAll(StableSort(InOrder, Decoding(t))).Ok? {
      InventoryFolds(hash, t0, capacity, steps, t, AnyGroup(), 0, 0);
    }
  }

  lemma CleanCount(hash: T.Key -> nat, t0: T.Table, capacity: nat, steps: seq<T.Step>, t: T.Table)
    requires CleanRun(hash, t0, capacity, steps, t)
    ensures ActivityTotal(T.OfCount, AnyGroup(), t) == |t.calls|
  {
    T.ReachedGood(hash, t0, capacity, steps, t);
    T.AllSettled(hash, t);
    AllCounted(t.slots, t.calls);
    hide T.Settled, Nameable, T.Sum, T.CallSum;
  }

  lemma PublishedWithin(hash: T.Key -> nat, t: T.Table)
    requires T.Good(hash, t) && T.Quiescent(t)
    ensures T.Published(t.slots) <= T.SlotSum(T.OfCount, T.AnyKey, t.slots, 0)
  {
    forall j | 0 <= j < |t.slots| && t.slots[j].state >= 2 ensures t.slots[j].count > 0 {
      T.WrittenSlots(hash, t, j);
    }
    assert t.slots[0..] == t.slots;
    EverySlotCounts(t.slots, 0);
  }

  lemma MergeDecoding(t: T.Table)
    requires AllWellDecoded(Decoding(t))
    ensures var r := MergeAll(StableSort(InOrder, Decoding(t)));
            (r.Ok? <==> AllFit(Decoding(t))) && (r.Ok? ==> Strict(r.value))
  {
    hide WellDecoded, Strict, MergeAll, TotalsOf, Fits, CompareKey;
    var groups := Decoding(t);
    var sorted := StableSort(InOrder, groups);
    GroupsPreordered();
    SortSorts(InOrder, groups);
    SortPermutes(InOrder, groups);
    SortedWellDecoded(groups, sorted);
    forall k ensures TotalsOf(Is(k), sorted) == TotalsOf(Is(k), groups) {
      TotalsPermute(Is(k), sorted, groups);
    }
    MergeOkIff(sorted);
    if MergeAll(sorted).Ok? { MergeStrict(sorted); }
  }
}

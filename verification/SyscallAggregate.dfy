/** The kernel-side aggregation of system calls: an entry stores its start under its thread in a
    least-recently-used map, the exit takes it out and adds the duration to the group of the
    system call, in the slot of the CPU it runs on.  User space sums the slots of a group.
 */
module SyscallAggregate {
  import opened Common
  import opened Sorting

  datatype Start = Start(timestampNs: nat, number: nat)

  datatype Slot = Slot(count: nat, errors: nat, totalNs: nat, minNs: nat, maxNs: nat)

  const ZERO: Slot := Slot(0, 0, 0, 0, 0)

  /** One aggregated exit. */
  datatype Sample = Sample(number: nat, cpu: nat, durationNs: nat, error: bool)

  /** A stored minimum of zero means that there is none yet. */
  function NextMin(stored: nat, durationNs: nat): (m: nat) {
    if stored == 0 || durationNs < stored then durationNs else stored
  }

  function Add(slot: Slot, durationNs: nat, error: bool): (r: Slot) {
    Slot(slot.count + 1, slot.errors + (if error then 1 else 0), slot.totalNs + durationNs,
         NextMin(slot.minNs, durationNs), Max(slot.maxNs, durationNs))
  }

  /** The slot that a list of samples leaves. */
  function Fold(samples: seq<Sample>): (r: Slot) {
    if samples == [] then ZERO
    else
      var last := samples[|samples| - 1];
      Add(Fold(samples[..|samples| - 1]), last.durationNs, last.error)
  }

  /** The maps and counters, and a history of what was overwritten, evicted, dropped and aggregated. */
  datatype State = State(inflight: map<nat, Start>, groups: map<nat, seq<Slot>>,
                         entries: nat, exits: nat, unmatchedExits: nat, droppedAggregates: nat,
                         overwritten: nat, evicted: nat, groupDrops: nat, samples: seq<Sample>)

  const EMPTY: State := State(map[], map[], 0, 0, 0, 0, 0, 0, 0, [])

  /** `stored` and `lost` are the map's doing: whether the update succeeds, and which other threads'
      starts it evicts. `admitted` is whether the group map has room for a new group. */
  datatype Step = Entry(thread: nat, number: int, now: nat, stored: bool, lost: set<nat>)
                | Exit(thread: nat, cpu: nat, now: nat, error: bool, admitted: bool)

  const U32: nat := 0x1_0000_0000

  /** The system call number is stored in 32 bits. */
  function StartOf(now: nat, number: nat): (start: Start) { Start(now, number % U32) }

  /** The other threads' starts that the map evicts. */
  function Gone(inflight: map<nat, Start>, thread: nat, lost: set<nat>): (gone: set<nat>) {
    inflight.Keys * (lost - {thread})
  }

  function EntrySpec(s: State, thread: nat, number: int, now: nat, stored: bool, lost: set<nat>): (r: State) {
    if number < 0 then s
    else if !stored then s.(droppedAggregates := s.droppedAggregates + 1)
    else
      var gone := Gone(s.inflight, thread, lost);
      s.(inflight := (s.inflight - gone)[thread := StartOf(now, number)],
         entries := s.entries + 1,
         overwritten := s.overwritten + (if thread in s.inflight then 1 else 0),
         evicted := s.evicted + |gone|)
  }

  /** The difference of two unsigned 64-bit clock readings. */
  function Elapsed(start: nat, now: nat): (ns: nat) { (now - start) % U64 }

  /** The slots of a group, created when missing: zero everywhere but the minimum on the current CPU. */
  function SlotsOf(groups: map<nat, seq<Slot>>, cpus: nat, cpu: nat, number: nat, durationNs: nat): (r: seq<Slot>)
    requires cpu < cpus
  {
    if number in groups then groups[number]
    else seq(cpus, _ => ZERO)[cpu := ZERO.(minNs := durationNs)]
  }

  function ExitSpec(s: State, cpus: nat, thread: nat, cpu: nat, now: nat, error: bool, admitted: bool): (r: State)
    requires cpu < cpus && Shaped(s.groups, cpus)
  {
    if thread !in s.inflight then s.(unmatchedExits := s.unmatchedExits + 1)
    else
      var start := s.inflight[thread];
      var durationNs := Elapsed(start.timestampNs, now);
      var taken := s.(inflight := s.inflight - {thread}, exits := s.exits + 1);
      if start.number !in s.groups && !admitted then
        taken.(droppedAggregates := s.droppedAggregates + 1, groupDrops := s.groupDrops + 1)
      else
        var slots := SlotsOf(s.groups, cpus, cpu, start.number, durationNs);
        taken.(groups := s.groups[start.number := slots[cpu := Add(slots[cpu], durationNs, error)]],
               samples := s.samples + [Sample(start.number, cpu, durationNs, error)])
  }

  ghost predicate Shaped(groups: map<nat, seq<Slot>>, cpus: nat) {
    forall n :: n in groups ==> |groups[n]| == cpus
  }

  method UpdateSlot(slot: Slot, durationNs: nat, error: bool) returns (r: Slot)
    ensures r == Add(slot, durationNs, error)
  {
    r := slot.(count := slot.count + 1, totalNs := slot.totalNs + durationNs);
    if error { r := r.(errors := r.errors + 1); }
    if r.minNs == 0 || durationNs < r.minNs { r := r.(minNs := durationNs); }
    if durationNs > r.maxNs { r := r.(maxNs := durationNs); }
  }

  /** The group's slot on the CPU, in a new group if there is none. */
  method UpdateGroup(groups: map<nat, seq<Slot>>, cpus: nat, cpu: nat, number: nat, durationNs: nat, error: bool)
    returns (r: map<nat, seq<Slot>>)
    requires cpu < cpus && Shaped(groups, cpus)
    ensures var slots := SlotsOf(groups, cpus, cpu, number, durationNs);
      r == groups[number := slots[cpu := Add(slots[cpu], durationNs, error)]]
    ensures Shaped(r, cpus)
  {
    hide Add;
    r := groups;
    if number !in groups {
      r := r[number := seq(cpus, _ => ZERO)[cpu := ZERO.(minNs := durationNs)]];
    }
    var slot := UpdateSlot(r[number][cpu], durationNs, error);
    r := r[number := r[number][cpu := slot]];
  }

  /** The handlers, as they update the maps and counters. */
  class Probe {
    const cpus: nat
    var inflight: map<nat, Start>
    var groups: map<nat, seq<Slot>>
    var entries: nat
    var exits: nat
    var unmatchedExits: nat
    var droppedAggregates: nat
    ghost var overwritten: nat
    ghost var evicted: nat
    ghost var groupDrops: nat
    ghost var samples: seq<Sample>

    ghost function View(): (s: State)
      reads this
    {
      State(inflight, groups, entries, exits, unmatchedExits, droppedAggregates, overwritten, evicted, groupDrops, samples)
    }

    constructor (cpus: nat)
      ensures this.cpus == cpus && View() == EMPTY
    {
      this.cpus := cpus;
      inflight, groups := map[], map[];
      entries, exits, unmatchedExits, droppedAggregates := 0, 0, 0, 0;
      overwritten, evicted, groupDrops, samples := 0, 0, 0, [];
    }

    method AggregateEntry(thread: nat, number: int, now: nat, stored: bool, lost: set<nat>)
      modifies this
      ensures View() == EntrySpec(old(View()), thread, number, now, stored, lost)
    {
      hide StartOf, Gone;
      if number < 0 { return; }
      if !stored {
        droppedAggregates := droppedAggregates + 1;
        return;
      }
      var gone := Gone(inflight, thread, lost);
      if thread in inflight { overwritten := overwritten + 1; }
      evicted := evicted + |gone|;
      inflight := (inflight - gone)[thread := StartOf(now, number)];
      entries := entries + 1;
    }

    method AggregateExit(thread: nat, cpu: nat, now: nat, error: bool, admitted: bool)
      requires cpu < cpus && Shaped(groups, cpus)
      modifies this
      ensures View() == ExitSpec(old(View()), cpus, thread, cpu, now, error, admitted)
      ensures Shaped(groups, cpus)
      ensures thread in old(inflight) && (admitted || old(inflight)[thread].number in old(groups)) ==>
                var start := old(inflight)[thread];
                samples == old(samples) + [Sample(start.number, cpu, (now - start.timestampNs) % U64, error)]
    {
      hide Add, SlotsOf, Shaped;
      if thread !in inflight {
        unmatchedExits := unmatchedExits + 1;
        return;
      }
      var start := inflight[thread];
      var durationNs := Elapsed(start.timestampNs, now);
      inflight := inflight - {thread};
      exits := exits + 1;
      if start.number !in groups && !admitted {
        droppedAggregates := droppedAggregates + 1;
        groupDrops := groupDrops + 1;
        return;
      }
      groups := UpdateGroup(groups, cpus, cpu, start.number, durationNs, error);
      samples := samples + [Sample(start.number, cpu, durationNs, error)];
    }
  }

  // Every run

  function Of(number: nat): Sample -> bool { (x: Sample) => x.number == number }

  function OfSlot(number: nat, cpu: nat): Sample -> bool { (x: Sample) => x.number == number && x.cpu == cpu }

  /** Every group has samples, and each of its slots is the fold of the samples on its CPU. */
  ghost predicate Folded(groups: map<nat, seq<Slot>>, samples: seq<Sample>, cpus: nat) {
    && Shaped(groups, cpus)
    && (forall x :: x in samples ==> x.cpu < cpus && x.number in groups && x.durationNs < U64)
    && (forall n :: n in groups ==> exists x :: x in samples && x.number == n)
    && (forall n, c :: n in groups && 0 <= c < cpus ==> groups[n][c] == Fold(Filter(OfSlot(n, c), samples)))
  }

  /** What every step keeps. */
  ghost predicate Inv(s: State, cpus: nat) {
    && s.entries == s.exits + |s.inflight| + s.overwritten + s.evicted
    && s.exits == |s.samples| + s.groupDrops
    && s.groupDrops <= s.droppedAggregates
    && Folded(s.groups, s.samples, cpus)
  }

  function Next(s: State, cpus: nat, step: Step): (r: State)
    requires Shaped(s.groups, cpus) && (step.Exit? ==> step.cpu < cpus)
  {
    match step
    case Entry(thread, number, now, stored, lost) => EntrySpec(s, thread, number, now, stored, lost)
    case Exit(thread, cpu, now, error, admitted) => ExitSpec(s, cpus, thread, cpu, now, error, admitted)
  }

  lemma StoreSize(m: map<nat, Start>, gone: set<nat>, thread: nat, start: Start)
    requires gone <= m.Keys && thread !in gone
    ensures |(m - gone)[thread := start]| + |gone| == |m| + if thread in m then 0 else 1
  {
    var left := m.Keys - gone;
    assert m.Keys == left + gone;
    assert (m - gone)[thread := start].Keys == left + {thread};
    assert thread in m ==> left + {thread} == left;
  }

  lemma TakeSize(m: map<nat, Start>, thread: nat)
    requires thread in m
    ensures |m - {thread}| == |m| - 1
  {
    assert (m - {thread}).Keys == m.Keys - {thread};
  }

  lemma EntryKeeps(s: State, cpus: nat, thread: nat, number: int, now: nat, stored: bool, lost: set<nat>)
    requires Inv(s, cpus)
    ensures Inv(EntrySpec(s, thread, number, now, stored, lost), cpus)
  {
    StoreSize(s.inflight, Gone(s.inflight, thread, lost), thread, StartOf(now, if number < 0 then 0 else number));
  }

  lemma FoldSnoc(samples: seq<Sample>, x: Sample)
    ensures Fold(samples + [x]) == Add(Fold(samples), x.durationNs, x.error)
  {
    assert (samples + [x])[..|samples|] == samples;
  }

  lemma FilterSnoc(p: Sample -> bool, samples: seq<Sample>, x: Sample)
    ensures Filter(p, samples + [x]) == if p(x) then Filter(p, samples) + [x] else Filter(p, samples)
  {
    FilterConcat(p, samples, [x]);
  }

  /** A slot holds the fold of its samples, also when its group is new. */
  lemma SlotBefore(groups: map<nat, seq<Slot>>, samples: seq<Sample>, cpus: nat, number: nat, cpu: nat, c: nat, durationNs: nat)
    requires Folded(groups, samples, cpus) && cpu < cpus && c < cpus
    ensures |SlotsOf(groups, cpus, cpu, number, durationNs)| == cpus
    ensures var slot := SlotsOf(groups, cpus, cpu, number, durationNs)[c];
      var held := Fold(Filter(OfSlot(number, c), samples));
      if number in groups || c != cpu then slot == held else held == ZERO && slot == ZERO.(minNs := durationNs)
  {
    if number !in groups { FilterNone(OfSlot(number, c), samples); }
  }

  /** Starting from the new slot's minimum or from zero makes no difference. */
  lemma NewSlot(durationNs: nat, error: bool)
    ensures Add(ZERO.(minNs := durationNs), durationNs, error) == Add(ZERO, durationNs, error)
  {
  }

  /** The groups with one more sample. */
  ghost function WithSample(groups: map<nat, seq<Slot>>, cpus: nat, x: Sample): (r: map<nat, seq<Slot>>)
    requires x.cpu < cpus && Shaped(groups, cpus)
  {
    var slots := SlotsOf(groups, cpus, x.cpu, x.number, x.durationNs);
    groups[x.number := slots[x.cpu := Add(slots[x.cpu], x.durationNs, x.error)]]
  }

  lemma SlotAfter(groups: map<nat, seq<Slot>>, samples: seq<Sample>, cpus: nat, x: Sample, n: nat, c: nat)
    requires Folded(groups, samples, cpus) && x.cpu < cpus && c < cpus && (n in groups || n == x.number)
    ensures |WithSample(groups, cpus, x)[n]| == cpus
    ensures WithSample(groups, cpus, x)[n][c] == Fold(Filter(OfSlot(n, c), samples + [x]))
  {
    FilterSnoc(OfSlot(n, c), samples, x);
    FoldSnoc(Filter(OfSlot(n, c), samples), x);
    SlotBefore(groups, samples, cpus, x.number, x.cpu, c, x.durationNs);
    SlotBefore(groups, samples, cpus, x.number, x.cpu, x.cpu, x.durationNs);
    NewSlot(x.durationNs, x.error);
    hide Fold, Filter, SlotsOf, Add;
  }

  lemma FoldedNext(groups: map<nat, seq<Slot>>, samples: seq<Sample>, cpus: nat, x: Sample)
    requires Folded(groups, samples, cpus) && x.cpu < cpus && x.durationNs < U64
    ensures Folded(WithSample(groups, cpus, x), samples + [x], cpus)
  {
    hide Fold, Filter, SlotsOf, Add;
    var after := WithSample(groups, cpus, x);
    forall n, c | n in after && 0 <= c < cpus
      ensures |after[n]| == cpus && after[n][c] == Fold(Filter(OfSlot(n, c), samples + [x]))
    {
      SlotAfter(groups, samples, cpus, x, n, c);
    }
    forall n | n in after ensures |after[n]| == cpus { SlotAfter(groups, samples, cpus, x, n, 0); }
    assert x in samples + [x];
    forall n | n in after ensures exists y :: y in samples + [x] && y.number == n {
      if n in groups {
        var y :| y in samples && y.number == n;
        assert y in samples + [x];
      }
    }
  }

  lemma ElapsedFits(start: nat, now: nat)
    ensures Elapsed(start, now) < U64
  {
  }

  lemma ExitKeeps(s: State, cpus: nat, thread: nat, cpu: nat, now: nat, error: bool, admitted: bool)
    requires Inv(s, cpus) && cpu < cpus
    ensures Inv(ExitSpec(s, cpus, thread, cpu, now, error, admitted), cpus)
  {
    hide Folded, Elapsed, SlotsOf, Add;
    FoldedShape(s.groups, s.samples, cpus);
    if thread in s.inflight {
      var start := s.inflight[thread];
      var durationNs := Elapsed(start.timestampNs, now);
      ElapsedFits(start.timestampNs, now);
      TakeSize(s.inflight, thread);
      FoldedNext(s.groups, s.samples, cpus, Sample(start.number, cpu, durationNs, error));
    }
  }

  lemma FoldedShape(groups: map<nat, seq<Slot>>, samples: seq<Sample>, cpus: nat)
    requires Folded(groups, samples, cpus)
    ensures Shaped(groups, cpus)
  {
  }

  ghost predicate Legal(cpus: nat, steps: seq<Step>) { forall t :: t in steps ==> t.Exit? ==> t.cpu < cpus }

  /** The state after a run. */
  ghost function Run(cpus: nat, steps: seq<Step>): (s: State)
    requires Legal(cpus, steps)
    ensures Inv(s, cpus)
    decreases |steps|
  {
    if steps == [] then
      EMPTY
    else
      var before := Run(cpus, steps[..|steps| - 1]);
      StepKeeps(before, cpus, steps[|steps| - 1]);
      Next(before, cpus, steps[|steps| - 1])
  }

  lemma StepKeeps(s: State, cpus: nat, step: Step)
    requires Inv(s, cpus) && (step.Exit? ==> step.cpu < cpus)
    ensures Inv(Next(s, cpus, step), cpus)
  {
    hide Inv, EntrySpec, ExitSpec;
    assert Shaped(s.groups, cpus) by { InvShaped(s, cpus); }
    match step
    case Entry(thread, number, now, stored, lost) => EntryKeeps(s, cpus, thread, number, now, stored, lost);
    case Exit(thread, cpu, now, error, admitted) => ExitKeeps(s, cpus, thread, cpu, now, error, admitted);
  }

  lemma InvShaped(s: State, cpus: nat)
    requires Inv(s, cpus)
    ensures Shaped(s.groups, cpus)
  {
  }

  // Summing the CPUs

  function Saturate(n: nat): (r: nat) { if n < U64 then n else U64 - 1 }

  /** The sum of the slots in use; the minimum starts from the largest 64-bit value. */
  function Summed(slots: seq<Slot>): (r: Slot) {
    if slots == [] then ZERO.(minNs := U64 - 1)
    else
      var sum, x := Summed(slots[..|slots| - 1]), slots[|slots| - 1];
      if x.count == 0 then sum
      else Slot(sum.count + x.count, sum.errors + x.errors, sum.totalNs + x.totalNs,
                Min(sum.minNs, x.minNs), Max(sum.maxNs, x.maxNs))
  }

  /** What user space reports of a group: the sums saturate, and a group without samples has minimum zero. */
  function Reported(values: seq<Slot>): (group: Slot) {
    var sum := Summed(values);
    Slot(Saturate(sum.count), Saturate(sum.errors), Saturate(sum.totalNs),
         if sum.count == 0 then 0 else sum.minNs, sum.maxNs)
  }

  method SumGroup(values: seq<Slot>) returns (group: Slot)
    ensures group == Reported(values)
  {
    group := ZERO.(minNs := U64 - 1);
    for i := 0 to |values|
      invariant var sum := Summed(values[..i]);
        group == Slot(Saturate(sum.count), Saturate(sum.errors), Saturate(sum.totalNs), sum.minNs, sum.maxNs)
    {
      var x := values[i];
      assert values[..i + 1][..i] == values[..i];
      if x.count == 0 { continue; }
      group := Slot(Saturate(group.count + x.count), Saturate(group.errors + x.errors),
                    Saturate(group.totalNs + x.totalNs), Min(group.minNs, x.minNs), Max(group.maxNs, x.maxNs));
    }
    assert values[..|values|] == values;
    if group.count == 0 { group := group.(minNs := 0); }
  }

  /** The slots of a group, from its samples. */
  ghost function PerCpu(samples: seq<Sample>, number: nat, cpus: nat): (slots: seq<Slot>)
    ensures |slots| == cpus
  {
    seq(cpus, c requires 0 <= c < cpus => Fold(Filter(OfSlot(number, c), samples)))
  }

  /** Equal but for the minimum. */
  predicate SameSums(a: Slot, b: Slot) {
    a.count == b.count && a.errors == b.errors && a.totalNs == b.totalNs && a.maxNs == b.maxNs
  }

  ghost predicate Clean(slots: seq<Slot>) { forall c :: 0 <= c < |slots| && slots[c].count == 0 ==> slots[c] == ZERO }

  /** One more sample in one slot is one more sample in the sum. */
  lemma {:induction false} SummedUpdate(slots: seq<Slot>, c: nat, durationNs: nat, error: bool)
    requires c < |slots| && Clean(slots)
    ensures SameSums(Summed(slots[c := Add(slots[c], durationNs, error)]), Add(Summed(slots), durationNs, error))
  {
    var n := |slots| - 1;
    var changed := slots[c := Add(slots[c], durationNs, error)];
    if c == n {
      assert changed[..n] == slots[..n];
    } else {
      assert changed[..n] == slots[..n][c := Add(slots[..n][c], durationNs, error)];
      SummedUpdate(slots[..n], c, durationNs, error);
    }
  }

  lemma {:induction false} FoldCount(samples: seq<Sample>)
    ensures Fold(samples).count == |samples|
    ensures samples == [] <==> Fold(samples) == ZERO
  {
    if samples != [] { FoldCount(samples[..|samples| - 1]); }
  }

  lemma PerCpuSnoc(samples: seq<Sample>, number: nat, cpus: nat, x: Sample)
    requires x.cpu < cpus
    ensures PerCpu(samples + [x], number, cpus)
            == if x.number != number then PerCpu(samples, number, cpus)
               else PerCpu(samples, number, cpus)[x.cpu := Add(PerCpu(samples, number, cpus)[x.cpu], x.durationNs, x.error)]
  {
    hide Fold, Filter;
    forall c | 0 <= c < cpus
      ensures PerCpu(samples + [x], number, cpus)[c]
              == if OfSlot(number, c)(x) then Add(PerCpu(samples, number, cpus)[c], x.durationNs, x.error)
                 else PerCpu(samples, number, cpus)[c]
    {
      FilterSnoc(OfSlot(number, c), samples, x);
      FoldSnoc(Filter(OfSlot(number, c), samples), x);
    }
  }

  lemma PerCpuClean(samples: seq<Sample>, number: nat, cpus: nat)
    ensures Clean(PerCpu(samples, number, cpus))
  {
    forall c | 0 <= c < cpus ensures PerCpu(samples, number, cpus)[c].count == 0 ==> PerCpu(samples, number, cpus)[c] == ZERO {
      FoldCount(Filter(OfSlot(number, c), samples));
    }
  }

  lemma {:induction false} SummedZeros(slots: seq<Slot>)
    requires forall c :: 0 <= c < |slots| ==> slots[c] == ZERO
    ensures Summed(slots) == ZERO.(minNs := U64 - 1)
  {
    if slots != [] { SummedZeros(slots[..|slots| - 1]); }
  }

  lemma BlindNone(number: nat, cpus: nat)
    ensures SameSums(Summed(PerCpu([], number, cpus)), Fold(Filter(Of(number), [])))
  {
    SummedZeros(PerCpu([], number, cpus));
  }

  lemma BlindSnoc(samples: seq<Sample>, number: nat, cpus: nat, x: Sample)
    requires x.cpu < cpus && SameSums(Summed(PerCpu(samples, number, cpus)), Fold(Filter(Of(number), samples)))
    ensures SameSums(Summed(PerCpu(samples + [x], number, cpus)), Fold(Filter(Of(number), samples + [x])))
  {
    hide Fold, Filter, Summed, PerCpu;
    PerCpuSnoc(samples, number, cpus, x);
    FilterSnoc(Of(number), samples, x);
    if x.number == number {
      PerCpuClean(samples, number, cpus);
      SummedUpdate(PerCpu(samples, number, cpus), x.cpu, x.durationNs, x.error);
      FoldSnoc(Filter(Of(number), samples), x);
    }
  }

  /** The sum over the CPUs is the fold of all the group's samples, whatever CPU they came from. */
  lemma {:induction false} SumIsCpuBlind(samples: seq<Sample>, number: nat, cpus: nat)
    requires forall x :: x in samples ==> x.cpu < cpus
    ensures SameSums(Summed(PerCpu(samples, number, cpus)), Fold(Filter(Of(number), samples)))
  {
    hide *;
    if samples == [] {
      BlindNone(number, cpus);
    } else {
      var init, x := samples[..|samples| - 1], samples[|samples| - 1];
      SumIsCpuBlind(init, number, cpus);
      BlindSnoc(init, number, cpus, x);
      assert samples == init + [x];
    }
  }

  // The minimum

  ghost predicate IsMinimum(samples: seq<Sample>, m: nat) {
    (exists x :: x in samples && x.durationNs == m) && forall x :: x in samples ==> m <= x.durationNs
  }

  ghost predicate HasZero(samples: seq<Sample>) { exists x :: x in samples && x.durationNs == 0 }

  predicate EndsInZero(samples: seq<Sample>) { samples != [] && samples[|samples| - 1].durationNs == 0 }

  /** A slot's minimum is zero if and only if its last sample is, and right when no sample is. */
  lemma {:induction false} StoredMinimum(samples: seq<Sample>)
    requires samples != []
    ensures Fold(samples).minNs == 0 <==> EndsInZero(samples)
    ensures !HasZero(samples) ==> IsMinimum(samples, Fold(samples).minNs)
  {
    var init, x := samples[..|samples| - 1], samples[|samples| - 1];
    assert samples == init + [x];
    if init != [] {
      StoredMinimum(init);
      assert forall y :: y in samples <==> y in init || y == x;
    }
  }

  /** On one CPU the stored minimum is right if and only if no duration is zero, or the last one is. */
  lemma SlotMinimumIff(samples: seq<Sample>)
    requires samples != []
    ensures IsMinimum(samples, Fold(samples).minNs) <==> !HasZero(samples) || EndsInZero(samples)
  {
    StoredMinimum(samples);
    if EndsInZero(samples) { assert samples[|samples| - 1] in samples; }
  }

  /** A zero is forgotten when a longer call follows. */
  lemma ZeroForgotten(number: nat, cpu: nat, later: nat)
    requires later > 0
    ensures var samples := [Sample(number, cpu, 0, false), Sample(number, cpu, later, false)];
      Fold(samples).minNs == later && !IsMinimum(samples, later)
  {
    var samples := [Sample(number, cpu, 0, false), Sample(number, cpu, later, false)];
    assert samples[..1] == [samples[0]] && [samples[0]][..0] == [];
    assert Fold(samples[..1]).minNs == 0;
    assert samples[0] in samples;
  }

  ghost predicate InUse(slots: seq<Slot>, c: nat) { c < |slots| && slots[c].count != 0 }

  lemma {:induction false} SummedLower(slots: seq<Slot>, c: nat)
    requires InUse(slots, c)
    ensures Summed(slots).minNs <= slots[c].minNs && Summed(slots).count > 0
  {
    if c < |slots| - 1 { SummedLower(slots[..|slots| - 1], c); }
  }

  lemma {:induction false} SummedAttained(slots: seq<Slot>) returns (c: nat)
    requires Summed(slots).count > 0 && forall i :: 0 <= i < |slots| ==> slots[i].minNs < U64
    ensures InUse(slots, c) && slots[c].minNs == Summed(slots).minNs
  {
    var n := |slots| - 1;
    var sum := Summed(slots[..n]);
    if slots[n].count != 0 && (sum.count == 0 || slots[n].minNs <= sum.minNs) {
      SummedUnused(slots[..n]);
      c := n;
    } else {
      c := SummedAttained(slots[..n]);
    }
  }

  lemma {:induction false} SummedUnused(slots: seq<Slot>)
    ensures Summed(slots).count == 0 ==> Summed(slots).minNs == U64 - 1
  {
    if slots != [] { SummedUnused(slots[..|slots| - 1]); }
  }

  /** The samples of one slot. */
  ghost function On(samples: seq<Sample>, number: nat, c: nat): (r: seq<Sample>) { Filter(OfSlot(number, c), samples) }

  lemma OnMember(samples: seq<Sample>, number: nat, c: nat, x: Sample)
    ensures x in On(samples, number, c) <==> x in Filter(Of(number), samples) && x.cpu == c
  {
    FilterMember(OfSlot(number, c), samples, x);
    FilterMember(Of(number), samples, x);
  }

  lemma FoldMinBounded(samples: seq<Sample>)
    requires forall x :: x in samples ==> x.durationNs < U64
    ensures Fold(samples).minNs < U64
  {
    if samples != [] { FoldMinBounded(samples[..|samples| - 1]); }
  }

  /** Some slot in use attains the reported minimum. */
  lemma GroupAttained(samples: seq<Sample>, number: nat, cpus: nat) returns (c: nat)
    requires forall x :: x in samples ==> x.cpu < cpus && x.durationNs < U64
    requires Filter(Of(number), samples) != []
    ensures c < cpus && On(samples, number, c) != []
    ensures Fold(On(samples, number, c)).minNs == Summed(PerCpu(samples, number, cpus)).minNs
  {
    var slots := PerCpu(samples, number, cpus);
    SumIsCpuBlind(samples, number, cpus);
    FoldCount(Filter(Of(number), samples));
    forall i | 0 <= i < cpus ensures slots[i].minNs < U64 {
      forall x | x in On(samples, number, i) ensures x.durationNs < U64 {
        FilterMember(OfSlot(number, i), samples, x);
      }
      FoldMinBounded(On(samples, number, i));
    }
    hide Fold, Filter, Summed;
    c := SummedAttained(slots);
    FoldCount(On(samples, number, c));
  }

  /** The reported minimum is not above any slot's. */
  lemma GroupLower(samples: seq<Sample>, number: nat, cpus: nat, c: nat)
    requires c < cpus && On(samples, number, c) != []
    ensures Summed(PerCpu(samples, number, cpus)).minNs <= Fold(On(samples, number, c)).minNs
  {
    FoldCount(On(samples, number, c));
    SummedLower(PerCpu(samples, number, cpus), c);
  }

  lemma GroupWithoutZero(samples: seq<Sample>, number: nat, cpus: nat)
    requires forall x :: x in samples ==> x.cpu < cpus && x.durationNs < U64
    requires Filter(Of(number), samples) != [] && !HasZero(Filter(Of(number), samples))
    ensures IsMinimum(Filter(Of(number), samples), Summed(PerCpu(samples, number, cpus)).minNs)
  {
    hide Fold, Filter, Summed, PerCpu, On;
    var group := Filter(Of(number), samples);
    var m := Summed(PerCpu(samples, number, cpus)).minNs;
    var c := GroupAttained(samples, number, cpus);
    forall i: nat, x | x in On(samples, number, i) ensures x in group && x.cpu == i { OnMember(samples, number, i, x); }
    StoredMinimum(On(samples, number, c));
    forall x | x in group ensures m <= x.durationNs {
      OnMember(samples, number, x.cpu, x);
      FilterMember(Of(number), samples, x);
      StoredMinimum(On(samples, number, x.cpu));
      GroupLower(samples, number, cpus, x.cpu);
    }
  }

  /** Across the CPUs the reported minimum is right if and only if no duration of the group is zero, or
      the last duration on some CPU is. */
  lemma GroupMinimumIff(samples: seq<Sample>, number: nat, cpus: nat)
    requires forall x :: x in samples ==> x.cpu < cpus && x.durationNs < U64
    requires Filter(Of(number), samples) != []
    ensures var group := Filter(Of(number), samples);
      IsMinimum(group, Summed(PerCpu(samples, number, cpus)).minNs)
      <==> !HasZero(group) || exists c: nat :: c < cpus && EndsInZero(On(samples, number, c))
  {
    hide Fold, Filter, Summed, PerCpu, On, EndsInZero;
    if !HasZero(Filter(Of(number), samples)) {
      GroupWithoutZero(samples, number, cpus);
    } else {
      var c := GroupAttained(samples, number, cpus);
      StoredMinimum(On(samples, number, c));
      if i: nat :| i < cpus && EndsInZero(On(samples, number, i)) {
        EndsNonempty(On(samples, number, i));
        StoredMinimum(On(samples, number, i));
        GroupLower(samples, number, cpus, i);
      }
    }
  }

  lemma EndsNonempty(samples: seq<Sample>)
    requires EndsInZero(samples)
    ensures samples != []
  {
  }

  // What the reader reports

  lemma GroupSampled(cpus: nat, s: State, number: nat)
    requires Inv(s, cpus) && number in s.groups
    ensures s.groups[number] == PerCpu(s.samples, number, cpus) && Filter(Of(number), s.samples) != []
    ensures forall x :: x in s.samples ==> x.cpu < cpus && x.durationNs < U64
  {
    hide Fold, Filter;
    var x :| x in s.samples && x.number == number;
    FilterMember(Of(number), s.samples, x);
    assert s.groups[number] == PerCpu(s.samples, number, cpus);
  }

  /** What a run leaves in a group's slots: their sum is the CPU-blind fold of the group's samples. */
  lemma RunSums(cpus: nat, steps: seq<Step>, number: nat)
    requires Legal(cpus, steps) && number in Run(cpus, steps).groups
    ensures var s := Run(cpus, steps);
      && SameSums(Summed(s.groups[number]), Fold(Filter(Of(number), s.samples)))
      && Summed(s.groups[number]).count == |Filter(Of(number), s.samples)| > 0
  {
    hide Run, Fold, Filter, Summed, Inv;
    var s := Run(cpus, steps);
    GroupSampled(cpus, s, number);
    SumIsCpuBlind(s.samples, number, cpus);
    FoldCount(Filter(Of(number), s.samples));
  }

  function Failed(): Sample -> bool { (x: Sample) => x.error }

  function DurationSum(samples: seq<Sample>): (n: nat) {
    if samples == [] then 0 else DurationSum(samples[..|samples| - 1]) + samples[|samples| - 1].durationNs
  }

  ghost predicate IsMaximum(samples: seq<Sample>, m: nat) {
    (exists x :: x in samples && x.durationNs == m) && forall x :: x in samples ==> x.durationNs <= m
  }

  /** A fold counts its samples and the failed ones, adds up their durations and holds the longest. */
  lemma {:induction false} FoldMeans(samples: seq<Sample>)
    ensures var all := Fold(samples);
      && all.count == |samples| && all.errors == |Filter(Failed(), samples)| && all.totalNs == DurationSum(samples)
      && (samples != [] ==> IsMaximum(samples, all.maxNs))
  {
    if samples != [] {
      var init, x := samples[..|samples| - 1], samples[|samples| - 1];
      assert samples == init + [x];
      FoldMeans(init);
      FilterSnoc(Failed(), init, x);
      assert forall y :: y in samples <==> y in init || y == x;
    }
  }

  /** What user space reports of a run: a group's count, errors and total are those of its samples, up to saturation,
      its maximum is theirs, and its minimum is theirs if and only if none is zero or the last one on some CPU is. */
  lemma RunReports(cpus: nat, steps: seq<Step>, number: nat)
    requires Legal(cpus, steps) && number in Run(cpus, steps).groups
    ensures var s := Run(cpus, steps);
      var group, report := Filter(Of(number), s.samples), Reported(s.groups[number]);
      && group != [] && report.count == Min(|group|, U64 - 1)
      && report.errors == Min(|Filter(Failed(), group)|, U64 - 1)
      && report.totalNs == Min(DurationSum(group), U64 - 1) && IsMaximum(group, report.maxNs)
      && (IsMinimum(group, report.minNs)
          <==> !HasZero(group) || exists c: nat :: c < cpus && EndsInZero(On(s.samples, number, c)))
  {
    hide Run, Fold, Filter, Summed, Inv, IsMinimum, IsMaximum, HasZero, EndsInZero, On, PerCpu, DurationSum;
    var s := Run(cpus, steps);
    RunSums(cpus, steps, number);
    FoldMeans(Filter(Of(number), s.samples));
    GroupSampled(cpus, s, number);
    GroupMinimumIff(s.samples, number, cpus);
  }

  function In(numbers: set<nat>): Sample -> bool { (x: Sample) => x.number in numbers }

  lemma {:induction false} CountIn(numbers: set<nat>, n: nat, samples: seq<Sample>)
    requires n !in numbers
    ensures |Filter(In(numbers + {n}), samples)| == |Filter(In(numbers), samples)| + |Filter(Of(n), samples)|
  {
    if samples != [] { CountIn(numbers, n, samples[1..]); }
  }

  function Listed(numbers: seq<nat>): (r: set<nat>) { set k | k in numbers }

  /** The sum of all groups' counts, over a listing of the groups. */
  ghost function TotalCount(groups: map<nat, seq<Slot>>, numbers: seq<nat>): (n: nat)
    requires forall k :: k in numbers ==> k in groups
  {
    if numbers == [] then 0 else Summed(groups[numbers[0]]).count + TotalCount(groups, numbers[1..])
  }

  lemma {:induction false} TotalIsSamples(groups: map<nat, seq<Slot>>, samples: seq<Sample>, numbers: seq<nat>)
    requires forall k :: k in numbers ==> k in groups && Summed(groups[k]).count == |Filter(Of(k), samples)|
    requires forall i, j :: 0 <= i < j < |numbers| ==> numbers[i] != numbers[j]
    ensures TotalCount(groups, numbers) == |Filter(In(Listed(numbers)), samples)|
    decreases |numbers|
  {
    hide Summed, Filter;
    if numbers == [] {
      FilterNone(In(Listed(numbers)), samples);
    } else {
      var rest := Listed(numbers[1..]);
      TotalIsSamples(groups, samples, numbers[1..]);
      CountIn(rest, numbers[0], samples);
      assert Listed(numbers) == rest + {numbers[0]};
    }
  }

  /** In every run the groups' counts and the drops at exit account for every matched exit, and the matched
      exits, the calls in flight and the overwritten and evicted starts for every entry. */
  lemma RunConserves(cpus: nat, steps: seq<Step>, numbers: seq<nat>)
    requires Legal(cpus, steps)
    requires forall k :: k in numbers <==> k in Run(cpus, steps).groups
    requires forall i, j :: 0 <= i < j < |numbers| ==> numbers[i] != numbers[j]
    ensures var s := Run(cpus, steps);
      && TotalCount(s.groups, numbers) + s.groupDrops == s.exits
      && s.entries == s.exits + |s.inflight| + s.overwritten + s.evicted
  {
    hide Run, Summed, Filter, Fold;
    var s := Run(cpus, steps);
    forall k | k in numbers ensures Summed(s.groups[k]).count == |Filter(Of(k), s.samples)| {
      RunSums(cpus, steps, k);
    }
    TotalIsSamples(s.groups, s.samples, numbers);
    FilterAll(In(Listed(numbers)), s.samples);
  }
}

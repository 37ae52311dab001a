/** Linear probing of a table, shared by the aggregate table and the NVTX range table. */
module LinearProbing {

  /** The slot that probe number `p` of a hash visits. */
  function SlotIndex(hash: nat, p: nat, capacity: nat): (index: nat)
    requires capacity > 0
    ensures index < capacity
  {
    (hash % capacity + p) % capacity
  }

  lemma ModWrap(a: nat, c: nat)
    requires c > 0 && a < 2 * c
    ensures a % c == if a < c then a else a - c
  {
    if a < c {
      assert a % c == a;
    } else {
      assert (a - c) % c == a - c;
      assert a == c * 1 + (a - c);
      assert a / c == 1 && a % c == a - c;
    }
  }

  /** The number of the probe that reaches a slot. */
  function ProbeOf(hash: nat, index: nat, capacity: nat): (p: nat)
    requires capacity > 0 && index < capacity
    ensures p < capacity && SlotIndex(hash, p, capacity) == index
  {
    var first := hash % capacity;
    var p := if index >= first then index - first else index + capacity - first;
    ModWrap(first + p, capacity);
    p
  }

  /** The first `capacity` probes visit distinct slots. */
  lemma ProbesDiffer(hash: nat, p: nat, q: nat, capacity: nat)
    requires capacity > 0 && p < capacity && q < capacity
    requires SlotIndex(hash, p, capacity) == SlotIndex(hash, q, capacity)
    ensures p == q
  {
    ModWrap(hash % capacity + p, capacity);
    ModWrap(hash % capacity + q, capacity);
  }
}

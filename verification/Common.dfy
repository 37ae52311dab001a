/** Types shared by every component. */
module Common {

  datatype Option<+T> = None | Some(value: T)

  /** One more than the largest value of an unsigned 64-bit counter. */
  const U64: nat := 0x1_0000_0000_0000_0000

  /** Bytes of a bounded name buffer, terminator included. */
  const NAME_LENGTH: nat := 128

  function Min(a: int, b: int): int { if a <= b then a else b }

  function Max(a: int, b: int): int { if a <= b then b else a }

  /** `part` stands at position `i` of `whole`. */
  predicate OccursAt<T(==)>(part: seq<T>, whole: seq<T>, i: nat) {
    i + |part| <= |whole| && whole[i..i + |part|] == part
  }

  ghost predicate Occurs<T>(part: seq<T>, whole: seq<T>) { exists i: nat :: OccursAt(part, whole, i) }
}

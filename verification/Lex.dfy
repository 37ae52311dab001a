/** Lexicographic comparison of sequences of numbers: the order of byte strings and of the
    tuple keys that the correlator's ordered maps iterate in.
 */
module Lex {

  function CompareNat(a: nat, b: nat): int { if a < b then -1 else if a == b then 0 else 1 }

  /** Negative, zero or positive. */
  function Compare(a: seq<nat>, b: seq<nat>): (c: int) {
    if a == [] then (if b == [] then 0 else -1)
    else if b == [] then 1
    else if a[0] != b[0] then CompareNat(a[0], b[0])
    else Compare(a[1..], b[1..])
  }

  predicate AtMost(a: seq<nat>, b: seq<nat>) { Compare(a, b) <= 0 }

  /** A total order. */
  lemma {:induction false} Order(a: seq<nat>, b: seq<nat>, c: seq<nat>)
    ensures Compare(a, b) == 0 <==> a == b
    ensures Compare(a, b) <= 0 || Compare(b, a) <= 0
    ensures Compare(a, b) <= 0 && Compare(b, c) <= 0 ==> Compare(a, c) <= 0
    ensures Compare(a, b) <= 0 && Compare(b, a) <= 0 ==> a == b
  {
    if a != [] && b != [] {
      Order(a[1..], b[1..], if c == [] then [] else c[1..]);
      assert a == [a[0]] + a[1..] && b == [b[0]] + b[1..];
    }
  }

  /** The sequences agree up to position `i`, where `a` ends or has the smaller number. */
  ghost predicate LessAt(a: seq<nat>, b: seq<nat>, i: nat) {
    i <= |a| && i < |b| && a[..i] == b[..i] && (i == |a| || a[i] < b[i])
  }

  lemma SameFirst(a: seq<nat>, b: seq<nat>, i: nat)
    ensures LessAt(a, b, i) && i > 0 ==> a[0] == b[0]
  {
    if LessAt(a, b, i) && i > 0 { assert a[..i][0] == b[..i][0]; }
  }

  /** One sequence comes before another if and only if it is smaller at the first position where they differ. */
  lemma {:induction false} OrderMeans(a: seq<nat>, b: seq<nat>)
    ensures Compare(a, b) < 0 <==> exists i: nat :: LessAt(a, b, i)
  {
    if a == [] {
      if b != [] { assert LessAt(a, b, 0); }
    } else if b != [] {
      if a[0] != b[0] {
        if a[0] < b[0] { assert LessAt(a, b, 0); }
        forall i: nat ensures LessAt(a, b, i) ==> i == 0 { SameFirst(a, b, i); }
      } else {
        OrderMeans(a[1..], b[1..]);
        if i: nat :| LessAt(a[1..], b[1..], i) {
          assert a[..i + 1] == [a[0]] + a[1..][..i] && b[..i + 1] == [b[0]] + b[1..][..i];
          assert LessAt(a, b, i + 1);
        }
        if i: nat :| LessAt(a, b, i) {
          assert a[1..][..i - 1] == a[..i][1..] && b[1..][..i - 1] == b[..i][1..];
          assert LessAt(a[1..], b[1..], i - 1);
        }
      }
    }
  }
}

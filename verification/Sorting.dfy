/** Stable sorting of sequences under a total preorder, and the laws that make a
    stable sort a function of its input alone.  The correlator, the capture merge
    and the inventory merge all sort with a stable library sort.
 */
module Sorting {

  /** A total preorder: every two elements compare, and comparison is transitive. */
  ghost predicate Preorder<T(!new)>(le: (T, T) -> bool) {
    && (forall x, y :: le(x, y) || le(y, x))
    && (forall x, y, z :: le(x, y) && le(y, z) ==> le(x, z))
  }

  ghost predicate Sorted<T>(le: (T, T) -> bool, s: seq<T>) {
    forall i, j :: 0 <= i < j < |s| ==> le(s[i], s[j])
  }

  function Filter<T>(p: T -> bool, s: seq<T>): (r: seq<T>) {
    if s == [] then []
    else if p(s[0]) then [s[0]] + Filter(p, s[1..])
    else Filter(p, s[1..])
  }

  function Map<T, U>(f: T -> U, s: seq<T>): (r: seq<U>)
    ensures |r| == |s| && forall i :: 0 <= i < |s| ==> r[i] == f(s[i])
  {
    seq(|s|, i requires 0 <= i < |s| => f(s[i]))
  }

  /** Places `x` in front of the first element it does not exceed. */
  function Insert<T>(le: (T, T) -> bool, x: T, s: seq<T>): (r: seq<T>) {
    if s == [] then [x]
    else if le(x, s[0]) then [x] + s
    else [s[0]] + Insert(le, x, s[1..])
  }

  function StableSort<T>(le: (T, T) -> bool, s: seq<T>): (r: seq<T>) {
    if s == [] then [] else Insert(le, s[0], StableSort(le, s[1..]))
  }

  /** The elements that `le` ranks together with `x`. */
  function Alike<T>(le: (T, T) -> bool, x: T): T -> bool {
    y => le(x, y) && le(y, x)
  }

  // Filter

  lemma {:induction false} FilterConcat<T>(p: T -> bool, a: seq<T>, b: seq<T>)
    ensures Filter(p, a + b) == Filter(p, a) + Filter(p, b)
  {
    if a == [] {
      assert a + b == b;
    } else {
      assert (a + b)[1..] == a[1..] + b;
      FilterConcat(p, a[1..], b);
    }
  }

  lemma FilterOne<T>(p: T -> bool, x: T)
    ensures Filter(p, [x]) == if p(x) then [x] else []
  {
  }

  lemma FilterAround<T>(p: T -> bool, before: seq<T>, x: T, after: seq<T>)
    ensures Filter(p, before + [x] + after) == Filter(p, before) + (if p(x) then [x] else []) + Filter(p, after)
  {
    hide Filter;
    FilterConcat(p, before + [x], after);
    FilterConcat(p, before, [x]);
    FilterOne(p, x);
  }

  lemma {:induction false} FilterMember<T>(p: T -> bool, s: seq<T>, x: T)
    ensures x in Filter(p, s) <==> x in s && p(x)
  {
    if s != [] {
      assert s == [s[0]] + s[1..];
      FilterMember(p, s[1..], x);
    }
  }

  lemma {:induction false} FilterAll<T>(p: T -> bool, s: seq<T>)
    requires forall x :: x in s ==> p(x)
    ensures Filter(p, s) == s
  {
    if s != [] { FilterAll(p, s[1..]); }
  }

  lemma {:induction false} FilterNone<T>(p: T -> bool, s: seq<T>)
    requires forall x :: x in s ==> !p(x)
    ensures Filter(p, s) == []
  {
    if s != [] { FilterNone(p, s[1..]); }
  }

  lemma {:induction false} FilterTwice<T>(p: T -> bool, q: T -> bool, s: seq<T>)
    ensures Filter(p, Filter(q, s)) == Filter(q, Filter(p, s))
  {
    if s != [] { FilterTwice(p, q, s[1..]); }
  }

  lemma {:induction false} FilterAgree<T>(p: T -> bool, q: T -> bool, s: seq<T>)
    requires forall x :: x in s ==> p(x) == q(x)
    ensures Filter(p, s) == Filter(q, s)
  {
    if s != [] { FilterAgree(p, q, s[1..]); }
  }

  lemma {:induction false} FilterSorted<T(!new)>(le: (T, T) -> bool, p: T -> bool, s: seq<T>)
    requires Sorted(le, s)
    ensures Sorted(le, Filter(p, s))
  {
    if s != [] {
      FilterSorted(le, p, s[1..]);
      forall x | x in Filter(p, s[1..]) ensures le(s[0], x) {
        FilterMember(p, s[1..], x);
      }
    }
  }

  lemma {:induction false} FilterMap<T, U>(p: U -> bool, q: T -> bool, f: T -> U, s: seq<T>)
    requires forall x :: x in s ==> p(f(x)) == q(x)
    ensures Filter(p, Map(f, s)) == Map(f, Filter(q, s))
  {
    if s != [] {
      assert Map(f, s)[1..] == Map(f, s[1..]);
      FilterMap(p, q, f, s[1..]);
    }
  }

  lemma {:induction false} FilterCount<T>(p: T -> bool, s: seq<T>, x: T)
    ensures multiset(Filter(p, s))[x] == if p(x) then multiset(s)[x] else 0
  {
    if s != [] {
      assert s == [s[0]] + s[1..];
      FilterCount(p, s[1..], x);
    }
  }

  lemma MapConcat<T, U>(f: T -> U, a: seq<T>, b: seq<T>)
    ensures Map(f, a + b) == Map(f, a) + Map(f, b)
  {
  }

  // The sort is sorted, a permutation and stable

  lemma {:induction false} InsertMembers<T>(le: (T, T) -> bool, x: T, s: seq<T>)
    ensures multiset(Insert(le, x, s)) == multiset([x]) + multiset(s)
    ensures |Insert(le, x, s)| == |s| + 1
  {
    if s != [] && !le(x, s[0]) {
      assert s == [s[0]] + s[1..];
      InsertMembers(le, x, s[1..]);
    }
  }

  lemma {:induction false} SortPermutes<T>(le: (T, T) -> bool, s: seq<T>)
    ensures multiset(StableSort(le, s)) == multiset(s)
    ensures |StableSort(le, s)| == |s|
    ensures forall x :: x in StableSort(le, s) <==> x in s
  {
    if s != [] {
      assert s == [s[0]] + s[1..];
      SortPermutes(le, s[1..]);
      InsertMembers(le, s[0], StableSort(le, s[1..]));
    }
    forall x ensures x in StableSort(le, s) <==> x in s {
      assert x in StableSort(le, s) <==> x in multiset(StableSort(le, s));
    }
  }

  lemma MapFront<T, U>(f: T -> U, x: T, s: seq<T>)
    ensures multiset(Map(f, [x] + s)) == multiset([f(x)]) + multiset(Map(f, s))
  {
    assert Map(f, [x] + s) == [f(x)] + Map(f, s);
  }

  /** Elements whose image is `y` may be filtered out of the rest first. */
  lemma {:induction false} MapFilterCount<T, U>(f: T -> U, p: T -> bool, s: seq<T>, y: U)
    requires forall x :: x in s && f(x) == y ==> p(x)
    ensures multiset(Map(f, Filter(p, s)))[y] == multiset(Map(f, s))[y]
  {
    hide Map;
    if s != [] {
      MapFilterCount(f, p, s[1..], y);
      MapFront(f, s[0], s[1..]);
      MapFront(f, s[0], Filter(p, s[1..]));
      assert s == [s[0]] + s[1..];
    }
  }

  lemma {:induction false} MapInsertPermutes<T, U>(le: (T, T) -> bool, f: T -> U, x: T, s: seq<T>)
    ensures multiset(Map(f, Insert(le, x, s))) == multiset([f(x)]) + multiset(Map(f, s))
  {
    hide Map;
    if s == [] || le(x, s[0]) {
      MapFront(f, x, s);
      assert [x] + s == Insert(le, x, s);
    } else {
      MapInsertPermutes(le, f, x, s[1..]);
      MapFront(f, s[0], Insert(le, x, s[1..]));
      MapFront(f, s[0], s[1..]);
      assert s == [s[0]] + s[1..];
    }
  }

  lemma {:induction false} MapSortPermutes<T, U>(le: (T, T) -> bool, f: T -> U, s: seq<T>)
    ensures multiset(Map(f, StableSort(le, s))) == multiset(Map(f, s))
  {
    hide Map;
    if s != [] {
      MapSortPermutes(le, f, s[1..]);
      MapInsertPermutes(le, f, s[0], StableSort(le, s[1..]));
      MapFront(f, s[0], s[1..]);
      assert s == [s[0]] + s[1..];
    }
  }

  lemma {:induction false} InsertSorts<T(!new)>(le: (T, T) -> bool, x: T, s: seq<T>)
    requires Preorder(le) && Sorted(le, s)
    ensures Sorted(le, Insert(le, x, s))
  {
    if s != [] && !le(x, s[0]) {
      InsertSorts(le, x, s[1..]);
      var t := Insert(le, x, s[1..]);
      InsertMembers(le, x, s[1..]);
      forall y | y in t ensures le(s[0], y) {
        assert y in multiset(t);
        assert y == x || y in s[1..];
      }
    }
  }

  lemma {:induction false} SortSorts<T(!new)>(le: (T, T) -> bool, s: seq<T>)
    requires Preorder(le)
    ensures Sorted(le, StableSort(le, s))
  {
    if s != [] {
      SortSorts(le, s[1..]);
      InsertSorts(le, s[0], StableSort(le, s[1..]));
    }
  }

  lemma {:induction false} SortIdentity<T>(le: (T, T) -> bool, s: seq<T>)
    requires Sorted(le, s)
    ensures StableSort(le, s) == s
  {
    if s != [] {
      SortIdentity(le, s[1..]);
      assert s == [s[0]] + s[1..];
    }
  }

  lemma {:induction false} FilterInsert<T(!new)>(le: (T, T) -> bool, p: T -> bool, x: T, s: seq<T>)
    requires Preorder(le) && Sorted(le, s)
    ensures Filter(p, Insert(le, x, s)) == if p(x) then Insert(le, x, Filter(p, s)) else Filter(p, s)
  {
    if s != [] {
      if le(x, s[0]) {
        assert ([x] + s)[1..] == s;
        if p(x) && Filter(p, s) != [] {
          var y := Filter(p, s)[0];
          FilterMember(p, s, y);
        }
      } else {
        FilterInsert(le, p, x, s[1..]);
      }
    }
  }

  /** Sorting commutes with filtering: this is stability. */
  lemma {:induction false} FilterSort<T(!new)>(le: (T, T) -> bool, p: T -> bool, s: seq<T>)
    requires Preorder(le)
    ensures Filter(p, StableSort(le, s)) == StableSort(le, Filter(p, s))
  {
    if s != [] {
      FilterSort(le, p, s[1..]);
      SortSorts(le, s[1..]);
      FilterInsert(le, p, s[0], StableSort(le, s[1..]));
    }
  }

  // A stable sort is determined by the order inside each class of equals

  ghost predicate SameClasses<T(!new)>(le: (T, T) -> bool, s: seq<T>, t: seq<T>) {
    forall x :: Filter(Alike(le, x), s) == Filter(Alike(le, x), t)
  }

  lemma {:induction false} SortedUnique<T(!new)>(le: (T, T) -> bool, s: seq<T>, t: seq<T>)
    requires Preorder(le) && Sorted(le, s) && Sorted(le, t) && SameClasses(le, s, t)
    ensures s == t
  {
    if s == [] {
      assert t == [] by {
        if x :| x in t {
          FilterMember(Alike(le, x), t, x);
          FilterMember(Alike(le, x), s, x);
        }
      }
    } else {
      FilterMember(Alike(le, s[0]), s, s[0]);
      FilterMember(Alike(le, s[0]), t, s[0]);
      FilterMember(Alike(le, t[0]), s, t[0]);
      FilterMember(Alike(le, t[0]), t, t[0]);
      assert le(s[0], t[0]) && le(t[0], s[0]);
      assert Filter(Alike(le, s[0]), s)[0] == s[0];
      assert Filter(Alike(le, s[0]), t)[0] == t[0];
      forall x ensures Filter(Alike(le, x), s[1..]) == Filter(Alike(le, x), t[1..]) {
        var p := Alike(le, x);
        if p(s[0]) {
          assert Filter(p, s)[1..] == Filter(p, s[1..]);
          assert Filter(p, t)[1..] == Filter(p, t[1..]);
        }
      }
      SortedUnique(le, s[1..], t[1..]);
      assert s == [s[0]] + s[1..] && t == [t[0]] + t[1..];
    }
  }

  lemma AlikeFilterOfSort<T(!new)>(le: (T, T) -> bool, x: T, s: seq<T>)
    requires Preorder(le)
    ensures Filter(Alike(le, x), StableSort(le, s)) == Filter(Alike(le, x), s)
  {
    var c := Filter(Alike(le, x), s);
    FilterSort(le, Alike(le, x), s);
    forall i, j | 0 <= i < j < |c| ensures le(c[i], c[j]) {
      FilterMember(Alike(le, x), s, c[i]);
      FilterMember(Alike(le, x), s, c[j]);
    }
    SortIdentity(le, c);
  }

  lemma SameClassesSort<T(!new)>(le: (T, T) -> bool, s: seq<T>, t: seq<T>)
    requires Preorder(le) && SameClasses(le, s, t)
    ensures StableSort(le, s) == StableSort(le, t)
  {
    SortSorts(le, s);
    SortSorts(le, t);
    forall x ensures Filter(Alike(le, x), StableSort(le, s)) == Filter(Alike(le, x), StableSort(le, t)) {
      AlikeFilterOfSort(le, x, s);
      AlikeFilterOfSort(le, x, t);
    }
    SortedUnique(le, StableSort(le, s), StableSort(le, t));
  }

  /** Sorting pieces first does not change the sort of their concatenation. */
  lemma SortPieces<T(!new)>(le: (T, T) -> bool, a: seq<T>, b: seq<T>)
    requires Preorder(le)
    ensures StableSort(le, StableSort(le, a) + StableSort(le, b)) == StableSort(le, a + b)
  {
    forall x ensures Filter(Alike(le, x), StableSort(le, a) + StableSort(le, b))
                     == Filter(Alike(le, x), a + b) {
      FilterConcat(Alike(le, x), StableSort(le, a), StableSort(le, b));
      FilterConcat(Alike(le, x), a, b);
      AlikeFilterOfSort(le, x, a);
      AlikeFilterOfSort(le, x, b);
    }
    SameClassesSort(le, StableSort(le, a) + StableSort(le, b), a + b);
  }

  lemma {:induction false} MapInsert<T(!new), U>(le: (T, T) -> bool, le': (U, U) -> bool, f: T -> U,
                                                 x: T, s: seq<T>)
    requires forall a, b :: le(a, b) == le'(f(a), f(b))
    ensures Map(f, Insert(le, x, s)) == Insert(le', f(x), Map(f, s))
  {
    if s != [] {
      assert Map(f, s)[1..] == Map(f, s[1..]);
      if !le(x, s[0]) { MapInsert(le, le', f, x, s[1..]); }
    }
  }

  lemma {:induction false} MapSort<T(!new), U>(le: (T, T) -> bool, le': (U, U) -> bool, f: T -> U,
                                               s: seq<T>)
    requires forall a, b :: le(a, b) == le'(f(a), f(b))
    ensures Map(f, StableSort(le, s)) == StableSort(le', Map(f, s))
  {
    if s != [] {
      MapSort(le, le', f, s[1..]);
      assert Map(f, s)[1..] == Map(f, s[1..]);
      MapInsert(le, le', f, s[0], StableSort(le, s[1..]));
    }
  }
}

/** Stable sorting, as `sort_by_key` does it.

    The order is a parameter.  Sorting puts a sequence in ascending order and keeps every element
    as often as it was there, which is said by counting the elements that satisfy any predicate:
    that is the form in which conservation is used elsewhere. */
module Sorting {

  ghost predicate TotalOrder<T(!new)>(le: (T, T) -> bool) {
    && (forall x, y :: le(x, y) || le(y, x))
    && (forall x, y, z :: le(x, y) && le(y, z) ==> le(x, z))
  }

  ghost predicate Ascending<T>(xs: seq<T>, le: (T, T) -> bool) {
    forall i, j | 0 <= i < j < |xs| :: le(xs[i], xs[j])
  }

  function Insert<T>(xs: seq<T>, x: T, le: (T, T) -> bool): seq<T> {
    if xs == [] || le(xs[|xs| - 1], x) then xs + [x]
    else Insert(xs[..|xs| - 1], x, le) + [xs[|xs| - 1]]
  }

  function Sort<T>(xs: seq<T>, le: (T, T) -> bool): seq<T> {
    if xs == [] then [] else Insert(Sort(xs[..|xs| - 1], le), xs[|xs| - 1], le)
  }

  function Count<T>(xs: seq<T>, p: T -> bool): nat {
    if xs == [] then 0 else Count(xs[..|xs| - 1], p) + if p(xs[|xs| - 1]) then 1 else 0
  }

  lemma CountLast<T>(xs: seq<T>, x: T, p: T -> bool)
    ensures Count(xs + [x], p) == Count(xs, p) + if p(x) then 1 else 0
  {
    assert (xs + [x])[..|xs|] == xs;
  }

  lemma {:induction false} InsertCounts<T>(xs: seq<T>, x: T, le: (T, T) -> bool, p: T -> bool)
    ensures |Insert(xs, x, le)| == |xs| + 1
    ensures Count(Insert(xs, x, le), p) == Count(xs, p) + if p(x) then 1 else 0
  {
    if xs == [] || le(xs[|xs| - 1], x) {
      CountLast(xs, x, p);
    } else {
      var rest, last := xs[..|xs| - 1], xs[|xs| - 1];
      InsertCounts(rest, x, le, p);
      CountLast(Insert(rest, x, le), last, p);
    }
  }

  /** Sorting keeps every element as often as it was there. */
  lemma {:induction false} SortCounts<T>(xs: seq<T>, le: (T, T) -> bool, p: T -> bool)
    ensures |Sort(xs, le)| == |xs|
    ensures Count(Sort(xs, le), p) == Count(xs, p)
  {
    if xs != [] {
      SortCounts(xs[..|xs| - 1], le, p);
      InsertCounts(Sort(xs[..|xs| - 1], le), xs[|xs| - 1], le, p);
    }
  }

  lemma {:induction false} InsertMembers<T>(xs: seq<T>, x: T, le: (T, T) -> bool)
    ensures forall y | y in Insert(xs, x, le) :: y in xs || y == x
    ensures forall y | y in xs :: y in Insert(xs, x, le)
    ensures x in Insert(xs, x, le)
  {
    if xs != [] && !le(xs[|xs| - 1], x) {
      InsertMembers(xs[..|xs| - 1], x, le);
      assert xs == xs[..|xs| - 1] + [xs[|xs| - 1]];
    }
  }

  lemma {:induction false} SortMembers<T>(xs: seq<T>, le: (T, T) -> bool)
    ensures forall y | y in Sort(xs, le) :: y in xs
    ensures forall y | y in xs :: y in Sort(xs, le)
  {
    if xs != [] {
      SortMembers(xs[..|xs| - 1], le);
      InsertMembers(Sort(xs[..|xs| - 1], le), xs[|xs| - 1], le);
      assert xs == xs[..|xs| - 1] + [xs[|xs| - 1]];
    }
  }

  lemma {:induction false} InsertAscends<T(!new)>(xs: seq<T>, x: T, le: (T, T) -> bool)
    requires TotalOrder(le) && Ascending(xs, le)
    ensures Ascending(Insert(xs, x, le), le)
  {
    if xs == [] || le(xs[|xs| - 1], x) {
      forall i | 0 <= i < |xs| ensures le(xs[i], x) { }
    } else {
      var rest, last := xs[..|xs| - 1], xs[|xs| - 1];
      InsertAscends(rest, x, le);
      InsertMembers(rest, x, le);
      var front := Insert(rest, x, le);
      forall i | 0 <= i < |front| ensures le(front[i], last) {
        assert front[i] in front;
        if front[i] != x { var k :| 0 <= k < |rest| && rest[k] == front[i]; }
      }
    }
  }

  lemma {:induction false} SortAscends<T(!new)>(xs: seq<T>, le: (T, T) -> bool)
    requires TotalOrder(le)
    ensures Ascending(Sort(xs, le), le)
  {
    if xs != [] {
      SortAscends(xs[..|xs| - 1], le);
      InsertAscends(Sort(xs[..|xs| - 1], le), xs[|xs| - 1], le);
    }
  }

  lemma {:induction false} CountPositive<T>(xs: seq<T>, p: T -> bool)
    ensures (forall x | x in xs :: !p(x)) ==> Count(xs, p) == 0
    ensures (exists x | x in xs :: p(x)) ==> Count(xs, p) > 0
  {
    if xs != [] {
      CountPositive(xs[..|xs| - 1], p);
      assert xs == xs[..|xs| - 1] + [xs[|xs| - 1]];
    }
  }
}

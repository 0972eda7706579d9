/** Sequence operations the iterator chains of the source come down to.

    `Filter` is `retain`, `Concat` is `flat_map` over files, `Reverse` is `rev`.  For each, the
    lemmas say what its members are and that it repeats no key if its input does not; filtering
    twice is filtering by both conditions. */
module Seqs {

  /** `Vec::retain`. */
  function Filter<T>(xs: seq<T>, keep: T -> bool): seq<T> {
    if xs == [] then []
    else Filter(xs[..|xs| - 1], keep) + if keep(xs[|xs| - 1]) then [xs[|xs| - 1]] else []
  }

  lemma {:induction false} FilterMembers<T>(xs: seq<T>, keep: T -> bool)
    ensures forall x | x in Filter(xs, keep) :: x in xs && keep(x)
    ensures forall x | x in xs && keep(x) :: x in Filter(xs, keep)
    ensures |Filter(xs, keep)| <= |xs|
  {
    if xs != [] {
      assert xs == xs[..|xs| - 1] + [xs[|xs| - 1]];
      FilterMembers(xs[..|xs| - 1], keep);
    }
  }

  lemma {:induction false} FilterTwice<T>(xs: seq<T>, p: T -> bool, q: T -> bool, both: T -> bool)
    requires forall x | x in xs :: both(x) <==> p(x) && q(x)
    ensures Filter(Filter(xs, p), q) == Filter(xs, both)
  {
    if xs != [] {
      var rest, last := xs[..|xs| - 1], xs[|xs| - 1];
      assert last in xs && forall x | x in rest :: x in xs;
      FilterTwice(rest, p, q, both);
      var once := Filter(rest, p);
      if p(last) {
        assert Filter(xs, p) == once + [last];
        FilterAppend(once, [last], q);
      } else {
        assert Filter(xs, p) == once;
      }
    }
  }

  lemma {:induction false} FilterAll<T>(xs: seq<T>, keep: T -> bool)
    requires forall x | x in xs :: keep(x)
    ensures Filter(xs, keep) == xs
  {
    if xs != [] {
      var rest, last := xs[..|xs| - 1], xs[|xs| - 1];
      assert xs == rest + [last];
      FilterAll(rest, keep);
    }
  }

  lemma {:induction false} FilterSame<T>(xs: seq<T>, p: T -> bool, q: T -> bool)
    requires forall x | x in xs :: p(x) <==> q(x)
    ensures Filter(xs, p) == Filter(xs, q)
  {
    if xs != [] {
      assert xs[|xs| - 1] in xs && forall x | x in xs[..|xs| - 1] :: x in xs;
      FilterSame(xs[..|xs| - 1], p, q);
    }
  }

  lemma FilterOne<T>(x: T, keep: T -> bool)
    ensures Filter([x], keep) == if keep(x) then [x] else []
  {
    assert [x][..0] == [] && Filter([x][..0], keep) == [];
  }

  lemma {:induction false} FilterAppend<T>(xs: seq<T>, ys: seq<T>, keep: T -> bool)
    ensures Filter(xs + ys, keep) == Filter(xs, keep) + Filter(ys, keep)
  {
    if ys == [] {
      assert xs + ys == xs;
    } else {
      assert (xs + ys)[..|xs + ys| - 1] == xs + ys[..|ys| - 1];
      FilterAppend(xs, ys[..|ys| - 1], keep);
    }
  }

  /** No two members have the same key. */
  ghost predicate Distinct<T, K>(xs: seq<T>, key: T -> K) {
    forall i, j | 0 <= i < j < |xs| :: key(xs[i]) != key(xs[j])
  }

  lemma {:induction false} FilterDistinct<T, K>(xs: seq<T>, keep: T -> bool, key: T -> K)
    requires Distinct(xs, key)
    ensures Distinct(Filter(xs, keep), key)
  {
    if xs != [] {
      var rest, last := xs[..|xs| - 1], xs[|xs| - 1];
      FilterDistinct(rest, keep, key);
      FilterMembers(rest, keep);
      var kept := Filter(rest, keep);
      forall j | 0 <= j < |kept| ensures key(kept[j]) != key(last) {
        assert kept[j] in kept;
        assert kept[j] in rest;
        var i :| 0 <= i < |rest| && rest[i] == kept[j];
        assert xs[i] == kept[j];
      }
    }
  }

  function Concat<T>(xss: seq<seq<T>>): seq<T> {
    if xss == [] then [] else Concat(xss[..|xss| - 1]) + xss[|xss| - 1]
  }

  lemma {:induction false} ConcatMembers<T>(xss: seq<seq<T>>)
    ensures forall k, x | 0 <= k < |xss| && x in xss[k] :: x in Concat(xss)
    ensures forall x | x in Concat(xss) :: exists k | 0 <= k < |xss| :: x in xss[k]
  {
    if xss != [] {
      var rest := xss[..|xss| - 1];
      ConcatMembers(rest);
      forall k, x | 0 <= k < |xss| && x in xss[k] ensures x in Concat(xss) {
        if k < |rest| { assert x in rest[k]; }
      }
      forall x | x in Concat(xss) ensures exists k | 0 <= k < |xss| :: x in xss[k] {
        if x in Concat(rest) {
          var k :| 0 <= k < |rest| && x in rest[k];
          assert x in xss[k];
        }
      }
    }
  }

  function Reverse<T>(xs: seq<T>): seq<T> {
    if xs == [] then [] else [xs[|xs| - 1]] + Reverse(xs[..|xs| - 1])
  }

  lemma {:induction false} ReverseMembers<T>(xs: seq<T>)
    ensures |Reverse(xs)| == |xs|
    ensures forall i | 0 <= i < |xs| :: Reverse(xs)[i] == xs[|xs| - 1 - i]
    ensures forall x | x in Reverse(xs) :: x in xs
    ensures forall x | x in xs :: x in Reverse(xs)
  {
    if xs != [] {
      ReverseMembers(xs[..|xs| - 1]);
      assert xs == xs[..|xs| - 1] + [xs[|xs| - 1]];
    }
  }

  lemma {:induction false} ReverseAppend<T>(xs: seq<T>, ys: seq<T>)
    ensures Reverse(xs + ys) == Reverse(ys) + Reverse(xs)
  {
    if ys == [] {
      assert xs + ys == xs;
    } else {
      assert (xs + ys)[..|xs + ys| - 1] == xs + ys[..|ys| - 1];
      ReverseAppend(xs, ys[..|ys| - 1]);
    }
  }

  lemma ReverseDistinct<T, K>(xs: seq<T>, key: T -> K)
    requires Distinct(xs, key)
    ensures Distinct(Reverse(xs), key)
  {
    ReverseMembers(xs);
  }

  /** Sequences that are distinct in themselves and share no key concatenate distinctly. */
  lemma {:induction false} ConcatDistinct<T, K>(xss: seq<seq<T>>, key: T -> K)
    requires forall k | 0 <= k < |xss| :: Distinct(xss[k], key)
    requires forall j, k, x, y | 0 <= j < k < |xss| && x in xss[j] && y in xss[k] :: key(x) != key(y)
    ensures Distinct(Concat(xss), key)
  {
    if xss != [] {
      var rest, last := xss[..|xss| - 1], xss[|xss| - 1];
      ConcatDistinct(rest, key);
      ConcatMembers(rest);
      var front := Concat(rest);
      forall i, j | 0 <= i < |front| && 0 <= j < |last| ensures key(front[i]) != key(last[j]) {
        assert front[i] in front;
        var k :| 0 <= k < |rest| && front[i] in rest[k];
        assert front[i] in xss[k] && last[j] in xss[|rest|];
      }
    }
  }
}

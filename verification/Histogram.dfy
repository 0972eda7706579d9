/** The counts of the query console: bins over a time range, filled from the manifests alone. */
module Histogram {
  import opened Values
  import opened Seqs
  import opened Pruning
  import opened TimeFilters
  import opened Grouping
  import opened Catalog
  import opened CatalogRuns
  import opened Scan

  const NANOS_PER_MINUTE: int := 60_000_000_000

  datatype Bin = Bin(start: int, end: int)

  function TotalMinutes(start: int, end: int): nat
    requires start <= end
  {
    (end - start) / NANOS_PER_MINUTE
  }

  function DivCeil(n: nat, k: nat): nat
    requires k > 0
  {
    (n + k - 1) / k
  }

  /** The step the number of bins is meant to give, by the length of the range. */
  function IntendedMinutes(total: nat): nat
    requires total > 60 * 5
  {
    if total <= 60 * 24 then 5
    else if total <= 60 * 24 * 10 then 60
    else 1440
  }

  function NumBins(total: nat, asked: Option<nat>): nat {
    if asked.Some? then asked.value
    else if total <= 60 * 5 then total
    else DivCeil(total, IntendedMinutes(total))
  }

  lemma DivCeilExact(n: nat, k: nat, q: nat)
    requires k > 0
    ensures DivCeil(n, k) == q <==> n <= k * q < n + k
  {
    QuotientIs(n + k - 1, k, q);
  }

  /** Left to itself the console gets a bin a minute up to five hours, and beyond that the least
      number of bins of five minutes, up to a day, of an hour, up to ten days, or of a day that
      cover the range. */
  lemma DefaultBins(total: nat)
    ensures var n := NumBins(total, None);
            if total <= 300 then n == total
            else if total <= 1440 then 5 * (n - 1) < total <= 5 * n
            else if total <= 14400 then 60 * (n - 1) < total <= 60 * n
            else 1440 * (n - 1) < total <= 1440 * n
    ensures forall asked :: NumBins(total, Some(asked)) == asked
  {
    var n := NumBins(total, None);
    if total > 300 { DivCeilExact(total, IntendedMinutes(total), n); }
    hide DivCeil;
  }

  /** Bins of `quotient` minutes that follow one another, with the left-over minutes in a bin of
      their own. */
  ghost predicate Covering(bins: seq<Bin>, start: int, total: nat, n: nat)
    requires n > 0
  {
    && |bins| == (if total % n > 0 then n + 1 else n)
    && bins[0].start == start
    && bins[|bins| - 1].end == start + total * NANOS_PER_MINUTE
    && Contiguous(bins)
    && (forall i | 0 <= i < n :: bins[i].end - bins[i].start == total / n * NANOS_PER_MINUTE)
    && (total % n > 0 ==> bins[n].end - bins[n].start == total % n * NANOS_PER_MINUTE)
  }

  ghost predicate Contiguous(bins: seq<Bin>) {
    && (forall i | 0 <= i < |bins| - 1 :: bins[i].end == bins[i + 1].start)
    && (forall i | 0 <= i < |bins| :: bins[i].start <= bins[i].end)
  }

  lemma Nanoseconds(total: nat, n: nat, quotient: nat, remainder: nat)
    requires n > 0 && total == n * quotient + remainder
    ensures n * (quotient * NANOS_PER_MINUTE) + remainder * NANOS_PER_MINUTE == total * NANOS_PER_MINUTE
    ensures (n - 1) * (quotient * NANOS_PER_MINUTE) + quotient * NANOS_PER_MINUTE == n * (quotient * NANOS_PER_MINUTE)
  {
    assert n * (quotient * NANOS_PER_MINUTE) == (n * quotient) * NANOS_PER_MINUTE;
  }

  lemma OneMore(k: nat, width: nat)
    ensures (k + 1) * width == k * width + width
  { }

  /** Such bins reach from the start to less than a minute before the end. */
  lemma CoversRange(bins: seq<Bin>, start: int, end: int, n: nat)
    requires start <= end && n > 0 && Covering(bins, start, TotalMinutes(start, end), n)
    ensures bins[0].start == start && 0 <= end - bins[|bins| - 1].end < 60_000_000_000
  {
    hide Contiguous;
  }

  /** `get_bounds`; no bins at all would divide by zero. */
  method GetBounds(start: int, end: int, asked: Option<nat>) returns (bins: seq<Bin>)
    requires start <= end && NumBins(TotalMinutes(start, end), asked) > 0
    ensures Covering(bins, start, TotalMinutes(start, end), NumBins(TotalMinutes(start, end), asked))
  {
    hide NumBins; hide TotalMinutes;
    var total := TotalMinutes(start, end);
    var n := NumBins(total, asked);
    var quotient, remainder := total / n, total % n;
    Nanoseconds(total, n, quotient, remainder);
    var width: nat := quotient * NANOS_PER_MINUTE;
    var loopEnd := if remainder > 0 then n else n - 1;
    bins := [];
    var from := start;
    for k := 0 to loopEnd
      invariant |bins| == k && from == start + k * width
      invariant k > 0 ==> bins[0].start == start && bins[k - 1].end == from
      invariant Contiguous(bins)
      invariant forall i | 0 <= i < k :: bins[i].end - bins[i].start == width
    {
      OneMore(k, width);
      var to := from + width;
      bins := bins + [Bin(from, to)];
      from := to;
    }
    var last := if remainder > 0 then remainder * NANOS_PER_MINUTE else width;
    bins := bins + [Bin(from, from + last)];
  }

  lemma Products(n: nat, q: nat, k: nat)
    ensures q < k ==> n * q + n <= n * k
    ensures q > k ==> n * k + n <= n * q
  {
    if q < k { MulMonotone(n, q + 1, k); }
    if q > k { MulMonotone(n, k + 1, q); }
  }

  lemma MulMonotone(n: nat, a: nat, b: nat)
    requires a <= b
    ensures n * a <= n * b
  { }

  lemma QuotientIs(a: nat, n: nat, k: nat)
    requires n > 0
    ensures a / n == k <==> n * k <= a < n * k + n
  {
    var q := a / n;
    assert n * q <= a < n * q + n;
    Products(n, q, k);
  }

  /** Left to itself the console gets bins of the intended length exactly when that length
      divides the range: otherwise the rounded-up number of bins makes them shorter. */
  lemma IntendedWidthExact(total: nat)
    requires total > 60 * 5
    ensures total / NumBins(total, None) == IntendedMinutes(total) <==> total % IntendedMinutes(total) == 0
  {
    var k, n := IntendedMinutes(total), NumBins(total, None);
    DivCeilExact(total, k, n);
    hide DivCeil; hide IntendedMinutes;
    QuotientIs(total, n, k);
    QuotientIs(total, k, total / k);
    Products(k, n, total / k);
    assert k * n == n * k;
  }

  // ------------------------------------------------------------------------- counting

  predicate InBin(bin: Bin, t: int) {
    bin.start <= t && bin.end >= t
  }

  /** The file's lower time bound is in the bin. */
  predicate Matches(f: File, timeColumn: string, bin: Bin) {
    exists k | 0 <= k < |f.columns| ::
      && f.columns[k].name == timeColumn && f.columns[k].stats.Some?
      && f.columns[k].stats.value.min.Int? && InBin(bin, f.columns[k].stats.value.min.i * NANOS_PER_MILLI)
  }

  function CountIn(files: seq<File>, timeColumn: string, bin: Bin): nat {
    if files == [] then 0
    else CountIn(files[..|files| - 1], timeColumn, bin) +
         if Matches(files[|files| - 1], timeColumn, bin) then files[|files| - 1].numRows else 0
  }

  function CountsOf(files: seq<File>, timeColumn: string, bins: seq<Bin>): (r: seq<nat>)
    ensures |r| == |bins| && forall i | 0 <= i < |r| :: r[i] == CountIn(files, timeColumn, bins[i])
  {
    seq(|bins|, i requires 0 <= i < |bins| => CountIn(files, timeColumn, bins[i]))
  }

  method BinDensity(files: seq<File>, timeColumn: string, bins: seq<Bin>) returns (counts: seq<nat>)
    ensures counts == CountsOf(files, timeColumn, bins)
  {
    counts := [];
    for i := 0 to |bins|
      invariant counts == CountsOf(files, timeColumn, bins[..i])
    {
      var count := 0;
      for k := 0 to |files|
        invariant count == CountIn(files[..k], timeColumn, bins[i])
      {
        assert files[..k + 1][..k] == files[..k];
        if Matches(files[k], timeColumn, bins[i]) {
          count := count + files[k].numRows;
        }
      }
      assert files[..|files|] == files;
      counts := counts + [count];
    }
    assert bins[..|bins|] == bins;
  }

  function Sum(ns: seq<nat>): nat {
    if ns == [] then 0 else Sum(ns[..|ns| - 1]) + ns[|ns| - 1]
  }

  /** How many bins an instant is in. */
  function BinsHolding(bins: seq<Bin>, t: int): nat {
    if bins == [] then 0
    else BinsHolding(bins[..|bins| - 1], t) + if InBin(bins[|bins| - 1], t) then 1 else 0
  }

  /** An inner boundary: where one bin ends and the next begins. */
  predicate Boundary(bins: seq<Bin>, t: int) {
    exists i | 0 < i < |bins| :: bins[i].start == t
  }

  lemma {:induction false} StartsRise(bins: seq<Bin>, i: nat, j: nat)
    requires Contiguous(bins) && i < j < |bins|
    ensures bins[i].end <= bins[j].start
    decreases j
  {
    if i + 1 < j { StartsRise(bins, i, j - 1); }
  }

  lemma {:induction false} NoneHolding(bins: seq<Bin>, t: int)
    requires forall i | 0 <= i < |bins| :: !InBin(bins[i], t)
    ensures BinsHolding(bins, t) == 0
  {
    if bins != [] { NoneHolding(bins[..|bins| - 1], t); }
  }

  lemma {:induction false} SomeHolding(bins: seq<Bin>, t: int, i: nat)
    requires i < |bins| && InBin(bins[i], t)
    ensures BinsHolding(bins, t) >= 1
    ensures forall j | i < j < |bins| && InBin(bins[j], t) :: BinsHolding(bins, t) >= 2
  {
    var last := |bins| - 1;
    if i < last {
      var rest := bins[..last];
      SomeHolding(rest, t, i);
      forall j | i < j < |bins| && InBin(bins[j], t) ensures BinsHolding(bins, t) >= 2 {
        if j < last { assert rest[j] == bins[j]; }
      }
    }
  }

  lemma {:induction false} OneHolding(bins: seq<Bin>, t: int, i: nat)
    requires i < |bins| && InBin(bins[i], t)
    requires forall j | 0 <= j < |bins| && j != i :: !InBin(bins[j], t)
    ensures BinsHolding(bins, t) == 1
  {
    var last := |bins| - 1;
    if i < last {
      OneHolding(bins[..last], t, i);
    } else {
      NoneHolding(bins[..last], t);
    }
  }

  lemma {:induction false} InSomeBin(bins: seq<Bin>, t: int) returns (i: nat)
    requires bins != [] && Contiguous(bins) && bins[0].start <= t <= bins[|bins| - 1].end
    ensures i < |bins| && InBin(bins[i], t)
  {
    if |bins| == 1 || bins[|bins| - 1].start <= t {
      i := |bins| - 1;
    } else {
      assert bins[|bins| - 2].end == bins[|bins| - 1].start;
      i := InSomeBin(bins[..|bins| - 1], t);
    }
  }

  /** An instant of the range is in one bin exactly when it is no inner boundary, and in more
      than one otherwise; an instant outside is in none. */
  lemma BinsHoldingExact(bins: seq<Bin>, t: int)
    requires bins != [] && Contiguous(bins)
    ensures BinsHolding(bins, t) > 0 <==> bins[0].start <= t <= bins[|bins| - 1].end
    ensures BinsHolding(bins, t) > 0 ==> (BinsHolding(bins, t) == 1 <==> !Boundary(bins, t))
  {
    if bins[0].start <= t <= bins[|bins| - 1].end {
      var i := InSomeBin(bins, t);
      SomeHolding(bins, t, i);
      if Boundary(bins, t) {
        var j :| 0 < j < |bins| && bins[j].start == t;
        assert InBin(bins[j - 1], t) && InBin(bins[j], t);
        SomeHolding(bins, t, j - 1);
      } else {
        forall j | 0 <= j < |bins| && j != i ensures !InBin(bins[j], t) {
          if j < i { StartsRise(bins, j, i); } else { StartsRise(bins, i, j); }
        }
        OneHolding(bins, t, i);
      }
    } else {
      forall j | 0 <= j < |bins| ensures !InBin(bins[j], t) {
        if j > 0 { StartsRise(bins, 0, j); }
        if j < |bins| - 1 { StartsRise(bins, j, |bins| - 1); }
      }
      NoneHolding(bins, t);
    }
  }

  /** A file whose time column occurs once, with integer statistics. */
  predicate Datable(f: File, timeColumn: string) {
    && HasTimeBounds(f, timeColumn)
    && forall j, k | 0 <= j < k < |f.columns| :: !(f.columns[j].name == timeColumn && f.columns[k].name == timeColumn)
  }

  lemma MatchesLower(f: File, timeColumn: string, bin: Bin)
    requires Datable(f, timeColumn)
    ensures Matches(f, timeColumn, bin) <==> InBin(bin, LowerBound(f, timeColumn))
  {
    var c := FindColumn(f.columns, timeColumn).value;
    var k :| 0 <= k < |f.columns| && f.columns[k] == c;
  }

  /** Rows times the number of bins that hold their file's lower bound. */
  function Weighted(files: seq<File>, timeColumn: string, bins: seq<Bin>): nat
    requires forall f | f in files :: Datable(f, timeColumn)
  {
    if files == [] then 0
    else
      var rest, last := files[..|files| - 1], files[|files| - 1];
      assert files == rest + [last];
      assert Datable(last, timeColumn);
      Weighted(rest, timeColumn, bins) + last.numRows * BinsHolding(bins, LowerBound(last, timeColumn))
  }

  lemma {:induction false} WeightedOneBin(files: seq<File>, timeColumn: string, bins: seq<Bin>, bin: Bin)
    requires forall f | f in files :: Datable(f, timeColumn)
    ensures Weighted(files, timeColumn, bins + [bin]) == Weighted(files, timeColumn, bins) + CountIn(files, timeColumn, bin)
    ensures Weighted(files, timeColumn, []) == 0
  {
    if files != [] {
      var rest, last := files[..|files| - 1], files[|files| - 1];
      assert files == rest + [last];
      assert Datable(last, timeColumn);
      WeightedOneBin(rest, timeColumn, bins, bin);
      MatchesLower(last, timeColumn, bin);
      ShareOneBin(bins, bin, LowerBound(last, timeColumn), last.numRows);
      hide Matches; hide BinsHolding; hide Datable; hide HasTimeBounds; hide LowerBound;
    }
  }

  lemma ShareOneBin(bins: seq<Bin>, bin: Bin, t: int, rows: nat)
    ensures rows * BinsHolding(bins + [bin], t) == rows * BinsHolding(bins, t) + if InBin(bin, t) then rows else 0
    ensures rows * BinsHolding([], t) == 0
  {
    assert (bins + [bin])[..|bins|] == bins;
  }

  /** The bins together count each file once per bin that holds its lower bound. */
  lemma {:induction false} TotalIsWeighted(files: seq<File>, timeColumn: string, bins: seq<Bin>)
    requires forall f | f in files :: Datable(f, timeColumn)
    ensures Sum(CountsOf(files, timeColumn, bins)) == Weighted(files, timeColumn, bins)
  {
    if bins == [] {
      WeightedOneBin(files, timeColumn, [], Bin(0, 0));
    } else {
      var rest, last := bins[..|bins| - 1], bins[|bins| - 1];
      assert bins == rest + [last];
      TotalIsWeighted(files, timeColumn, rest);
      WeightedOneBin(files, timeColumn, rest, last);
      assert CountsOf(files, timeColumn, bins)[..|rest|] == CountsOf(files, timeColumn, rest);
    }
  }

  /** The rows of the files whose lower bound lies in the range the bins cover. */
  function RowsInRange(files: seq<File>, timeColumn: string, bins: seq<Bin>): nat
    requires bins != [] && forall f | f in files :: Datable(f, timeColumn)
  {
    if files == [] then 0
    else
      var rest, last := files[..|files| - 1], files[|files| - 1];
      assert files == rest + [last];
      assert Datable(last, timeColumn);
      RowsInRange(rest, timeColumn, bins) +
      if bins[0].start <= LowerBound(last, timeColumn) <= bins[|bins| - 1].end then last.numRows else 0
  }

  lemma {:induction false} WeightedExact(files: seq<File>, timeColumn: string, bins: seq<Bin>)
    requires bins != [] && Contiguous(bins) && forall f | f in files :: Datable(f, timeColumn)
    ensures Weighted(files, timeColumn, bins) >= RowsInRange(files, timeColumn, bins)
    ensures Weighted(files, timeColumn, bins) == RowsInRange(files, timeColumn, bins) <==>
            forall f | f in files && f.numRows > 0 :: !Boundary(bins, LowerBound(f, timeColumn))
  {
    if files != [] {
      var rest, last := files[..|files| - 1], files[|files| - 1];
      assert files == rest + [last];
      assert Datable(last, timeColumn);
      WeightedExact(rest, timeColumn, bins);
      ShareExact(bins, LowerBound(last, timeColumn), last.numRows);
      hide Contiguous; hide BinsHolding; hide Boundary; hide Datable; hide HasTimeBounds;
    }
  }

  /** One file's share of the total. */
  lemma ShareExact(bins: seq<Bin>, t: int, rows: nat)
    requires bins != [] && Contiguous(bins)
    ensures var due := if bins[0].start <= t <= bins[|bins| - 1].end then rows else 0;
            && rows * BinsHolding(bins, t) >= due
            && (rows * BinsHolding(bins, t) == due <==> (rows > 0 ==> !Boundary(bins, t)))
  {
    BinsHoldingExact(bins, t);
    var n := BinsHolding(bins, t);
    if n == 0 {
      if Boundary(bins, t) { BoundaryInRange(bins, t); }
    } else {
      assert rows * n == rows + rows * (n - 1);
    }
  }

  lemma BoundaryInRange(bins: seq<Bin>, t: int)
    requires Contiguous(bins) && Boundary(bins, t)
    ensures bins[0].start <= t <= bins[|bins| - 1].end
  {
    var i :| 0 < i < |bins| && bins[i].start == t;
    StartsRise(bins, 0, i);
    if i < |bins| - 1 { StartsRise(bins, i, |bins| - 1); }
  }

  /** The histogram's total is the row count of the range exactly when no file with rows starts
      on an inner boundary: such a file is counted on both sides of it. */
  lemma TotalExact(files: seq<File>, timeColumn: string, bins: seq<Bin>)
    requires bins != [] && Contiguous(bins) && forall f | f in files :: Datable(f, timeColumn)
    ensures Sum(CountsOf(files, timeColumn, bins)) == RowsInRange(files, timeColumn, bins) <==>
            forall f | f in files && f.numRows > 0 :: !Boundary(bins, LowerBound(f, timeColumn))
  {
    TotalIsWeighted(files, timeColumn, bins);
    WeightedExact(files, timeColumn, bins);
  }

  // ------------------------------------------------------------- the manifests suffice

  /** The filters `get_manifest_list` selects manifests by. */
  function RangeFilters(start: int, end: int): seq<TimeFilter> {
    [Low(Included(start)), High(Included(end))]
  }

  lemma {:induction false} CountAppend(xs: seq<File>, ys: seq<File>, timeColumn: string, bin: Bin)
    ensures CountIn(xs + ys, timeColumn, bin) == CountIn(xs, timeColumn, bin) + CountIn(ys, timeColumn, bin)
  {
    if ys == [] {
      assert xs + ys == xs;
    } else {
      assert (xs + ys)[..|xs + ys| - 1] == xs + ys[..|ys| - 1];
      CountAppend(xs, ys[..|ys| - 1], timeColumn, bin);
    }
  }

  lemma {:induction false} CountsNothing(files: seq<File>, timeColumn: string, bin: Bin)
    requires forall f | f in files :: !Matches(f, timeColumn, bin)
    ensures CountIn(files, timeColumn, bin) == 0
  {
    if files != [] {
      assert files == files[..|files| - 1] + [files[|files| - 1]];
      CountsNothing(files[..|files| - 1], timeColumn, bin);
    }
  }

  /** Leaving out items none of whose files match a bin leaves the bin's count alone. */
  lemma {:induction false} CountSelected(s: Store, items: seq<ManifestItem>, keep: ManifestItem -> bool, timeColumn: string, bin: Bin)
    requires forall item, f | item in items && !keep(item) && item.path in s.manifests && f in s.manifests[item.path] ::
               !Matches(f, timeColumn, bin)
    ensures CountIn(Concat(FilesOf(s, Filter(items, keep))), timeColumn, bin) ==
            CountIn(Concat(FilesOf(s, items)), timeColumn, bin)
  {
    if items != [] {
      var rest, last := items[..|items| - 1], items[|items| - 1];
      assert items == rest + [last];
      CountSelected(s, rest, keep, timeColumn, bin);
      ConcatLast(s, rest, last);
      if keep(last) {
        ConcatLast(s, Filter(rest, keep), last);
        assert Filter(items, keep) == Filter(rest, keep) + [last];
      } else {
        assert Filter(items, keep) == Filter(rest, keep);
      }
      var files := if last.path in s.manifests then s.manifests[last.path] else [];
      CountAppend(Concat(FilesOf(s, rest)), files, timeColumn, bin);
      CountAppend(Concat(FilesOf(s, Filter(rest, keep))), files, timeColumn, bin);
      if !keep(last) {
        forall f | f in files ensures !Matches(f, timeColumn, bin) { assert last in items; }
        CountsNothing(files, timeColumn, bin);
      }
    }
  }

  lemma ConcatLast(s: Store, items: seq<ManifestItem>, last: ManifestItem)
    ensures Concat(FilesOf(s, items + [last])) ==
            Concat(FilesOf(s, items)) + if last.path in s.manifests then s.manifests[last.path] else []
  {
    assert (items + [last])[..|items|] == items;
    if last.path in s.manifests {
      var all := FilesOf(s, items + [last]);
      assert all == FilesOf(s, items) + [s.manifests[last.path]];
      assert all[..|all| - 1] == FilesOf(s, items);
    } else {
      assert FilesOf(s, items + [last]) == FilesOf(s, items);
    }
  }

  /** Over every run: a bin within the range counts the same over the manifests the range
      selects as over all manifests. */
  lemma SelectedSuffice(events: seq<Event>, me: string, timePartition: Option<string>, start: int, end: int, bin: Bin)
    requires AdmissibleRun(events, me, timePartition) && start <= bin.start && bin.end <= end
    requires forall f | f in Concat(FilesOf(StoreAfter(events, me, timePartition), StoreAfter(events, me, timePartition).items)) ::
               Datable(f, TimeColumn(timePartition))
    ensures var s := StoreAfter(events, me, timePartition);
            CountIn(Concat(FilesOf(s, Selected(s.items, RangeFilters(start, end)))), TimeColumn(timePartition), bin) ==
            CountIn(Concat(FilesOf(s, s.items)), TimeColumn(timePartition), bin)
  {
    var s, tc := StoreAfter(events, me, timePartition), TimeColumn(timePartition);
    var filters := RangeFilters(start, end);
    SnapshotInvariant(events, me, timePartition);
    hide StoreAfter;
    forall item, f | item in s.items && !OverlapsAll(item, filters) && item.path in s.manifests && f in s.manifests[item.path]
      ensures !Matches(f, tc, bin)
    {
      var i :| 0 <= i < |s.items| && s.items[i] == item;
      InSomeManifest(s, item, f);
      PartitionIsWholeDay(LowerBound(f, tc), LowerBound(f, tc));
      assert item.lower <= LowerBound(f, tc) <= item.upper;
    }
    CountSelected(s, s.items, item => OverlapsAll(item, filters), tc, bin);
  }

  lemma InSomeManifest(s: Store, item: ManifestItem, f: File)
    requires item in s.items && item.path in s.manifests && f in s.manifests[item.path]
    ensures f in Concat(FilesOf(s, s.items))
  {
    FilesOfMembers(s, s.items);
    var i :| 0 <= i < |s.items| && s.items[i] == item;
    var found := FilesOf(s, s.items);
    ConcatMembers(found);
    var k :| 0 <= k < |found| && found[k] == s.manifests[item.path];
  }
}

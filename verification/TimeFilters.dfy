/** Time bounds of a query: how they are read off its filters, what they admit, how they
    select manifests, and how they are split when some data predates the manifests.
    Instants are nanoseconds since the Unix epoch. */
module TimeFilters {
  import opened Values
  import opened Seqs

  const NANOS_PER_MILLI: int := 1_000_000
  const NANOS_PER_SECOND: int := 1_000_000_000
  const NANOS_PER_DAY: int := 86_400 * NANOS_PER_SECOND

  datatype Bound = Included(time: int) | Excluded(time: int) | Unbounded

  datatype TimeFilter = Low(bound: Bound) | High(bound: Bound) | At(time: int)

  predicate Admits(f: TimeFilter, t: int) {
    match f
    case Low(Included(b)) => b <= t
    case Low(Excluded(b)) => b < t
    case High(Included(b)) => t <= b
    case High(Excluded(b)) => t < b
    case At(b) => t == b
    case _ => true
  }

  predicate AdmitsAll(fs: seq<TimeFilter>, t: int) {
    forall f | f in fs :: Admits(f, t)
  }

  // ------------------------------------------------------- reading filters off a query

  /** `extract_timestamp_bound`.  Which column the literal is compared with is looked at for
      text literals only. */
  function TimestampBound(e: Expr, timePartition: Option<string>, parse: string -> Option<int>): Option<(Op, int)> {
    if !e.Binary? || !e.right.Literal? then None
    else match e.right.value
      case Millis(Some(ms)) => Some((e.op, ms * NANOS_PER_MILLI))
      case Nanos(Some(ns)) => Some((e.op, ns))
      case Utf8(Some(text)) =>
        if timePartition.Some? && e.left == Column(timePartition.value) && parse(text).Some?
        then Some((e.op, parse(text).value)) else None
      case _ => None
  }

  function FromExpr(e: Expr, timePartition: Option<string>, parse: string -> Option<int>): Option<TimeFilter> {
    var bound := TimestampBound(e, timePartition, parse);
    if bound.None? then None
    else var (op, time) := bound.value;
      match op
      case Gt => Some(Low(Excluded(time)))
      case GtEq => Some(Low(Included(time)))
      case Lt => Some(High(Excluded(time)))
      case LtEq => Some(High(Included(time)))
      case Eq => Some(At(time))
      case NotDistinct => Some(At(time))
      case OtherOp => None
  }

  /** `extract_primary_filter`. */
  function ExtractPrimaryFilter(filters: seq<Expr>, timePartition: Option<string>, parse: string -> Option<int>)
    : seq<TimeFilter>
  {
    if filters == [] then []
    else
      ExtractPrimaryFilter(filters[..|filters| - 1], timePartition, parse) +
      match FromExpr(filters[|filters| - 1], timePartition, parse) { case Some(f) => [f] case None => [] }
  }

  /** The instant of a row, where its time column is a timestamp. */
  function RowTime(row: Row, timeColumn: string): Option<int> {
    if timeColumn in row && row[timeColumn].Int? then Some(row[timeColumn].i * NANOS_PER_MILLI) else None
  }

  /** The instant a literal names: epoch milliseconds, epoch nanoseconds, or a parsed text. */
  function InstantOf(literal: Scalar, parse: string -> Option<int>): Option<int> {
    match literal
    case Millis(Some(ms)) => Some(ms * 1_000_000)
    case Nanos(Some(ns)) => Some(ns)
    case Utf8(Some(text)) => parse(text)
    case _ => None
  }

  /** A comparison with a literal that is read as an instant: a timestamp whatever the column,
      a text only on the time partition. */
  predicate BoundsTime(e: Expr, timePartition: Option<string>, parse: string -> Option<int>) {
    && e.Binary? && !e.op.OtherOp? && e.right.Literal? && InstantOf(e.right.value, parse).Some?
    && (e.right.value.Utf8? ==> timePartition.Some? && e.left == Column(timePartition.value))
  }

  /** A filter is read off exactly such comparisons, and admits exactly the instants that compare
      so with the literal's. */
  lemma BoundExact(e: Expr, timePartition: Option<string>, parse: string -> Option<int>)
    ensures FromExpr(e, timePartition, parse).Some? <==> BoundsTime(e, timePartition, parse)
    ensures BoundsTime(e, timePartition, parse) ==>
              forall t :: Admits(FromExpr(e, timePartition, parse).value, t) <==>
                          Compares(e.op, Int(t), Int(InstantOf(e.right.value, parse).value))
  { }

  /** A filter that bounds time compares the time column, and, where the comparison is left to
      the engine, the rows it keeps compare so by instant. */
  ghost predicate ComparesTime(e: Expr, timeColumn: string, timePartition: Option<string>, parse: string -> Option<int>) {
    BoundsTime(e, timePartition, parse) ==>
      && e.left == Column(timeColumn)
      && (!e.right.value.Millis? ==>
            forall row | RowTime(row, timeColumn).Some? && Holds(e, row) ::
              Compares(e.op, Int(RowTime(row, timeColumn).value), Int(InstantOf(e.right.value, parse).value)))
  }

  /** A row that passes such a filter has an admitted time. */
  lemma HoldsAdmits(e: Expr, timeColumn: string, timePartition: Option<string>, parse: string -> Option<int>, row: Row)
    requires ComparesTime(e, timeColumn, timePartition, parse)
    requires FromExpr(e, timePartition, parse).Some? && RowTime(row, timeColumn).Some? && Holds(e, row)
    ensures Admits(FromExpr(e, timePartition, parse).value, RowTime(row, timeColumn).value)
  {
    BoundExact(e, timePartition, parse);
    if e.right.value.Millis? {
      assert Denotes(e.right.value) == Some(Int(e.right.value.ms.value));
    }
  }

  /** The bounds of a query admit an instant exactly when it meets each comparison that bounds
      time. */
  lemma {:induction false} ExtractedExact(filters: seq<Expr>, timePartition: Option<string>, parse: string -> Option<int>, t: int)
    ensures AdmitsAll(ExtractPrimaryFilter(filters, timePartition, parse), t) <==>
            forall e | e in filters && BoundsTime(e, timePartition, parse) ::
              Compares(e.op, Int(t), Int(InstantOf(e.right.value, parse).value))
  {
    if filters != [] {
      var rest, last := filters[..|filters| - 1], filters[|filters| - 1];
      assert filters == rest + [last];
      ExtractedExact(rest, timePartition, parse, t);
      BoundExact(last, timePartition, parse);
      hide FromExpr; hide BoundsTime; hide Admits; hide Compares; hide InstantOf;
      var bounds := ExtractPrimaryFilter(rest, timePartition, parse);
      var own := FromExpr(last, timePartition, parse);
      if own.Some? { assert own.value in bounds + [own.value]; }
      assert forall f | f in ExtractPrimaryFilter(filters, timePartition, parse) :: f in bounds || own == Some(f);
    }
  }

  lemma {:induction false} ExtractedAdmit(filters: seq<Expr>, timeColumn: string, timePartition: Option<string>,
                                          parse: string -> Option<int>, row: Row)
    requires forall e | e in filters :: ComparesTime(e, timeColumn, timePartition, parse) && Holds(e, row)
    requires RowTime(row, timeColumn).Some?
    ensures AdmitsAll(ExtractPrimaryFilter(filters, timePartition, parse), RowTime(row, timeColumn).value)
  {
    if filters != [] {
      var rest, last := filters[..|filters| - 1], filters[|filters| - 1];
      assert filters == rest + [last];
      ExtractedAdmit(rest, timeColumn, timePartition, parse, row);
      if FromExpr(last, timePartition, parse).Some? {
        HoldsAdmits(last, timeColumn, timePartition, parse, row);
      }
    }
  }

  /** Because the column is not looked at, a timestamp literal bounds the time of the rows that
      pass exactly when the column it is compared with is the time column. */
  lemma TimestampColumnExact(column: string, op: Op, ms: int, engine: Row -> bool, timeColumn: string, parse: string -> Option<int>)
    requires !op.OtherOp?
    ensures var e := Binary(Column(column), op, Literal(Millis(Some(ms))), engine);
            (forall row | RowTime(row, timeColumn).Some? && Holds(e, row) ::
               Admits(FromExpr(e, None, parse).value, RowTime(row, timeColumn).value))
            <==> column == timeColumn
  {
    var e := Binary(Column(column), op, Literal(Millis(Some(ms))), engine);
    var f := FromExpr(e, None, parse).value;
    if column == timeColumn {
      forall row | RowTime(row, timeColumn).Some? && Holds(e, row)
        ensures Admits(f, RowTime(row, timeColumn).value)
      {
        HoldsAdmits(e, timeColumn, None, parse, row);
      }
    } else {
      var passing := if op.Gt? then ms + 1 else if op.Lt? then ms - 1 else ms;
      var outside := if op.Gt? || op.GtEq? then ms - 1 else ms + 1;
      var row: Row := map[column := Int(passing), timeColumn := Int(outside)];
      assert row[column] == Int(passing) && row[timeColumn] == Int(outside);
      assert Denotes(e.right.value) == Some(Int(ms)) && Holds(e, row);
      assert RowTime(row, timeColumn) == Some(outside * NANOS_PER_MILLI);
      assert !Admits(f, outside * NANOS_PER_MILLI);
    }
  }

  // -------------------------------------------------------------- selecting manifests

  /** Where a manifest lives: the name its node writes under, and the day or days of its directory. */
  datatype ManifestPath = ManifestPath(fileName: string, firstDay: int, lastDay: int)

  datatype ManifestItem = ManifestItem(path: ManifestPath, lower: int, upper: int,
                                       events: nat, ingestion: nat, storage: nat)

  predicate Overlaps(item: ManifestItem, f: TimeFilter) {
    match f
    case Low(Included(t)) => item.upper >= t
    case Low(Excluded(t)) => item.upper > t
    case High(Included(t)) => item.lower <= t
    case High(Excluded(t)) => item.lower < t
    case At(t) => item.lower <= t <= item.upper
    case _ => true
  }

  predicate OverlapsAll(item: ManifestItem, fs: seq<TimeFilter>) {
    forall f | f in fs :: Overlaps(item, f)
  }

  /** A manifest survives a filter exactly when the filter admits an instant of its range. */
  lemma OverlapsExact(item: ManifestItem, f: TimeFilter)
    requires item.lower <= item.upper
    ensures Overlaps(item, f) <==> exists t | item.lower <= t <= item.upper :: Admits(f, t)
  {
    if Overlaps(item, f) {
      var t := match f case Low(_) => item.upper case High(_) => item.lower case At(t) => t;
      assert item.lower <= t <= item.upper && Admits(f, t);
    }
  }

  function Selected(manifestList: seq<ManifestItem>, filters: seq<TimeFilter>): seq<ManifestItem> {
    Filter(manifestList, item => OverlapsAll(item, filters))
  }

  /** `Snapshot::manifests`: one `retain` per filter. */
  method Manifests(manifestList: seq<ManifestItem>, filters: seq<TimeFilter>) returns (manifests: seq<ManifestItem>)
    ensures manifests == Selected(manifestList, filters)
  {
    manifests := manifestList;
    FilterAll(manifestList, item => OverlapsAll(item, filters[..0]));
    for k := 0 to |filters|
      invariant manifests == Selected(manifestList, filters[..k])
    {
      var f := filters[k];
      assert filters[..k + 1] == filters[..k] + [f];
      FilterTwice(manifestList, item => OverlapsAll(item, filters[..k]), item => Overlaps(item, f),
                  item => OverlapsAll(item, filters[..k + 1]));
      manifests := Filter(manifests, item => Overlaps(item, f));
    }
    assert filters[..|filters|] == filters;
  }

  // ------------------------------------------------- data that predates the manifests

  /** The first instant any manifest covers. */
  function FirstLower(manifestList: seq<ManifestItem>): int
    requires manifestList != []
  {
    if |manifestList| == 1 then manifestList[0].lower
    else
      var rest := FirstLower(manifestList[..|manifestList| - 1]);
      var last := manifestList[|manifestList| - 1].lower;
      if last < rest then last else rest
  }

  lemma {:induction false} FirstLowerIsLeast(manifestList: seq<ManifestItem>)
    requires manifestList != []
    ensures forall item | item in manifestList :: FirstLower(manifestList) <= item.lower
    ensures exists item | item in manifestList :: FirstLower(manifestList) == item.lower
  {
    if |manifestList| > 1 {
      var rest := manifestList[..|manifestList| - 1];
      assert manifestList == rest + [manifestList[|manifestList| - 1]];
      FirstLowerIsLeast(rest);
    } else {
      assert manifestList[0] in manifestList;
    }
  }

  predicate IsOverlappingQuery(manifestList: seq<ManifestItem>, filters: seq<TimeFilter>) {
    manifestList == [] ||
    exists f | f in filters :: f.Low? && !f.bound.Unbounded? && f.bound.time < FirstLower(manifestList)
  }

  ghost predicate StartsBefore(f: TimeFilter, manifestList: seq<ManifestItem>) {
    f.Low? && !f.bound.Unbounded? && forall item | item in manifestList :: f.bound.time < item.lower
  }

  /** The listing is consulted exactly when there are no manifests, or some lower bound of the
      query lies before all of them: not for a query without a lower bound. */
  lemma ListingNeededExact(manifestList: seq<ManifestItem>, filters: seq<TimeFilter>)
    ensures IsOverlappingQuery(manifestList, filters) <==>
            manifestList == [] || exists f | f in filters :: StartsBefore(f, manifestList)
  {
    if manifestList != [] {
      FirstLowerIsLeast(manifestList);
    }
  }

  predicate IsHigh(f: TimeFilter) {
    f.High? && !f.bound.Unbounded?
  }

  /** What one query bound becomes on the listing side, where the manifests start at `first`. */
  function ForListing(f: TimeFilter, first: int): TimeFilter {
    if IsHigh(f) && f.bound.time >= first then High(Excluded(first)) else f
  }

  function ListingFilters(filters: seq<TimeFilter>, first: int): (r: seq<TimeFilter>)
    ensures |r| == |filters| && forall k | 0 <= k < |r| :: r[k] == ForListing(filters[k], first)
  {
    seq(|filters|, k requires 0 <= k < |filters| => ForListing(filters[k], first))
  }

  function ManifestFilters(filters: seq<TimeFilter>, first: int): seq<TimeFilter> {
    [Low(Included(first))] + Filter(filters, f => IsHigh(f))
  }

  /** `return_listing_time_filters`: the listing filters, and the time filters as they are left
      for the manifests. */
  method ReturnListingTimeFilters(manifestList: seq<ManifestItem>, timeFilters: seq<TimeFilter>)
    returns (listing: Option<seq<TimeFilter>>, remaining: seq<TimeFilter>)
    ensures manifestList == [] ==> listing == Some(timeFilters) && remaining == timeFilters
    ensures manifestList != [] ==>
              && remaining == ManifestFilters(timeFilters, FirstLower(manifestList))
              && listing == (if timeFilters == [] then None
                             else Some(ListingFilters(timeFilters, FirstLower(manifestList))))
  {
    if manifestList == [] {
      return Some(timeFilters), timeFilters;
    }
    var listed: seq<TimeFilter> := [];
    var first := FirstLower(manifestList);
    remaining := [Low(Included(first))];
    for k := 0 to |timeFilters|
      invariant listed == ListingFilters(timeFilters[..k], first)
      invariant remaining == ManifestFilters(timeFilters[..k], first)
    {
      var f := timeFilters[k];
      assert timeFilters[..k + 1][..k] == timeFilters[..k];
      if IsHigh(f) {
        if f.bound.time < first {
          listed := listed + [f];
        } else {
          listed := listed + [High(Excluded(first))];
        }
        remaining := remaining + [f];
      } else {
        listed := listed + [f];
      }
    }
    assert timeFilters[..|timeFilters|] == timeFilters;
    listing := if |listed| > 0 then Some(listed) else None;
  }

  lemma ListingAdmits(filters: seq<TimeFilter>, first: int, t: int)
    ensures AdmitsAll(ListingFilters(filters, first), t) <==>
            forall k | 0 <= k < |filters| :: Admits(ForListing(filters[k], first), t)
  {
    var listing := ListingFilters(filters, first);
    assert forall k | 0 <= k < |filters| :: listing[k] in listing;
  }

  lemma ManifestAdmits(filters: seq<TimeFilter>, first: int, t: int)
    ensures AdmitsAll(ManifestFilters(filters, first), t) <==>
            first <= t && forall f | f in filters && IsHigh(f) :: Admits(f, t)
  {
    FilterMembers(filters, f => IsHigh(f));
    assert Low(Included(first)) in ManifestFilters(filters, first);
    assert forall f | f in Filter(filters, f => IsHigh(f)) :: f in ManifestFilters(filters, first);
  }

  /** The split loses no time the query asks for, the listing side reads nothing the query did
      not ask for, and the two sides meet at exactly the times that no High bound keeps out
      of the listing. */
  lemma SplitCovers(filters: seq<TimeFilter>, first: int, t: int)
    ensures AdmitsAll(filters, t) ==>
              AdmitsAll(ListingFilters(filters, first), t) || AdmitsAll(ManifestFilters(filters, first), t)
    ensures AdmitsAll(ListingFilters(filters, first), t) ==> AdmitsAll(filters, t)
    ensures AdmitsAll(ListingFilters(filters, first), t) && AdmitsAll(ManifestFilters(filters, first), t) <==>
            first <= t && AdmitsAll(filters, t) && (forall f | f in filters :: !IsHigh(f))
  {
    ListingAdmits(filters, first, t);
    ManifestAdmits(filters, first, t);
    assert forall k | 0 <= k < |filters| :: filters[k] in filters;
  }

  /** The two sides are disjoint whenever the query has a High bound. */
  lemma SplitDisjoint(filters: seq<TimeFilter>, first: int, t: int)
    requires exists f | f in filters :: IsHigh(f)
    ensures !(AdmitsAll(ListingFilters(filters, first), t) && AdmitsAll(ManifestFilters(filters, first), t))
  {
    SplitCovers(filters, first, t);
  }

  /** The bounds that keep a time out, once the High bounds are set aside. */
  predicate LowsAdmit(filters: seq<TimeFilter>, t: int) {
    forall f | f in filters && !IsHigh(f) :: Admits(f, t)
  }

  predicate HighsAdmit(filters: seq<TimeFilter>, t: int) {
    forall f | f in filters && IsHigh(f) :: Admits(f, t)
  }

  /** The two sides together admit the instant exactly when the query does. */
  predicate SplitExactAt(filters: seq<TimeFilter>, first: int, t: int) {
    AdmitsAll(filters, t) <==>
    AdmitsAll(ListingFilters(filters, first), t) || AdmitsAll(ManifestFilters(filters, first), t)
  }

  /** At one instant: the manifest side alone can admit too much, for it drops the other bounds. */
  lemma SplitAtInstant(filters: seq<TimeFilter>, first: int, t: int)
    ensures SplitExactAt(filters, first, t) <==> (first <= t && HighsAdmit(filters, t) ==> LowsAdmit(filters, t))
  {
    ManifestAdmits(filters, first, t);
    SplitCovers(filters, first, t);
  }

  predicate AsksForOneInstant(filters: seq<TimeFilter>) {
    exists f | f in filters :: f.At?
  }

  /** The test at the split point: either a High bound lies before it, or it meets the query's
      other bounds, and, should the query ask for a single instant, no later one meets the High
      bounds. */
  predicate SplitsWell(filters: seq<TimeFilter>, first: int) {
    HighsAdmit(filters, first) ==>
      LowsAdmit(filters, first) && (AsksForOneInstant(filters) ==> !HighsAdmit(filters, first + 1))
  }

  /** A query is split exactly, at all instants, when the split point passes the test. */
  lemma SplitExact(filters: seq<TimeFilter>, first: int)
    ensures (forall t: int :: SplitExactAt(filters, first, t)) <==> SplitsWell(filters, first)
  {
    SplitAtInstant(filters, first, first);
    SplitAtInstant(filters, first, first + 1);
    forall t: int
      ensures SplitsWell(filters, first) ==> SplitExactAt(filters, first, t)
    {
      SplitAtInstant(filters, first, t);
      if first < t { BoundsMonotone(filters, first, t); BoundsMonotone(filters, first + 1, t); }
    }
    OnlyOneInstant(filters, first);
  }

  lemma OnlyOneInstant(filters: seq<TimeFilter>, t: int)
    ensures AsksForOneInstant(filters) ==> !(LowsAdmit(filters, t) && LowsAdmit(filters, t + 1))
  {
    if AsksForOneInstant(filters) {
      var f :| f in filters && f.At?;
      assert !(Admits(f, t) && Admits(f, t + 1));
    }
  }

  lemma BoundsMonotone(filters: seq<TimeFilter>, t: int, u: int)
    requires t <= u
    ensures HighsAdmit(filters, u) ==> HighsAdmit(filters, t)
    ensures LowsAdmit(filters, t) && !AsksForOneInstant(filters) ==> LowsAdmit(filters, u)
  {
    forall f | f in filters && !IsHigh(f) && !f.At? && Admits(f, t) ensures Admits(f, u) { }
  }

  /** For one Low bound below the manifests and one High bound the split is exact. */
  lemma RangeSplitExact(low: TimeFilter, high: TimeFilter, first: int, t: int)
    requires low.Low? && !low.bound.Unbounded? && low.bound.time < first && IsHigh(high)
    ensures SplitExactAt([low, high], first, t)
  {
    SplitAtInstant([low, high], first, t);
  }
}

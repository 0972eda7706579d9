/** The books a stream keeps of its events and bytes: live gauges, counters by day, and the
    figures its snapshot items carry, through ingestion, snapshots, retention and reloads. */
module Ledger {
  import opened Values
  import opened Seqs
  import opened MapSums
  import opened TimeFilters
  import opened Grouping
  import opened Catalog
  import opened CatalogRuns
  import opened SnapshotFigures

  /** A signed gauge for each figure. */
  datatype Amounts = Amounts(events: int, ingestion: int, storage: int)

  datatype Gauges = Gauges(current: Amounts, deleted: Amounts, lifetime: Amounts)

  type Daily = map<int, Metrics>

  function Add(a: Amounts, m: Metrics): Amounts {
    Amounts(a.events + m.events, a.ingestion + m.ingestion, a.storage + m.storage)
  }

  function Sub(a: Amounts, m: Metrics): Amounts {
    Amounts(a.events - m.events, a.ingestion - m.ingestion, a.storage - m.storage)
  }

  function Sum(m: Metrics, n: Metrics): Metrics {
    Metrics(m.events + n.events, m.ingestion + n.ingestion, m.storage + n.storage)
  }

  const NOTHING: Metrics := Metrics(0, 0, 0)

  function OfDay(daily: Daily, d: int): Metrics {
    if d in daily then daily[d] else NOTHING
  }

  function Total(items: seq<ManifestItem>): Metrics {
    if items == [] then NOTHING else Sum(Total(items[..|items| - 1]), Figures(items[|items| - 1]))
  }

  function Counted(daily: Daily, d: int, m: Metrics): Daily {
    daily[d := Sum(OfDay(daily, d), m)]
  }

  function Recorded(g: Gauges, m: Metrics): Gauges {
    g.(current := Add(g.current, m), lifetime := Add(g.lifetime, m))
  }

  function Struck(g: Gauges, m: Metrics): Gauges {
    g.(current := Sub(g.current, m), deleted := Add(g.deleted, m))
  }

  /** The counters without the days of some items. */
  function Forgotten(daily: Daily, items: seq<ManifestItem>): Daily {
    if items == [] then daily else Forgotten(daily, items[..|items| - 1]) - {Day(items[|items| - 1].lower)}
  }

  function Loaded(daily: Daily, items: seq<ManifestItem>): Daily {
    if items == [] then daily
    else
      var last := items[|items| - 1];
      Counted(Loaded(daily, items[..|items| - 1]), Day(last.lower), Figures(last))
  }

  /** The items whose paths name one of the dates. */
  function Named(items: seq<ManifestItem>, days: set<int>): seq<ManifestItem> {
    Filter(items, (item: ManifestItem) => NamesADay(item.path, days))
  }

  const TWO_TO_64: int := 0x1_0000_0000_0000_0000

  /** `as u64`, from a signed gauge. */
  function AsU64(i: int): int {
    i % TWO_TO_64
  }

  function Unsigned(a: Amounts): Amounts {
    Amounts(AsU64(a.events), AsU64(a.ingestion), AsU64(a.storage))
  }

  /** The process's metrics for one stream. */
  class LiveMetrics {
    var gauges: Gauges
    var daily: Daily

    constructor ()
      ensures gauges == Gauges(Amounts(0, 0, 0), Amounts(0, 0, 0), Amounts(0, 0, 0)) && daily == map[]
    {
      var zero := Amounts(0, 0, 0);
      gauges, daily := Gauges(zero, zero, zero), map[];
    }

    method UpdateStats(size: nat, rows: nat, day: int)
      modifies this
      ensures gauges == Recorded(old(gauges), Metrics(rows, size, 0))
      ensures daily == Counted(old(daily), day, Metrics(rows, size, 0))
    {
      var c, l, was := gauges.current, gauges.lifetime, OfDay(daily, day);
      gauges := gauges.(current := c.(events := c.events + rows, ingestion := c.ingestion + size),
                        lifetime := l.(events := l.events + rows, ingestion := l.ingestion + size));
      daily := daily[day := was.(events := was.events + rows, ingestion := was.ingestion + size)];
    }

    method UpdateStorageMetrics(bytes: nat, day: int)
      modifies this
      ensures gauges == Recorded(old(gauges), Metrics(0, 0, bytes))
      ensures daily == Counted(old(daily), day, Metrics(0, 0, bytes))
    {
      var c, l, was := gauges.current, gauges.lifetime, OfDay(daily, day);
      gauges := gauges.(current := c.(storage := c.storage + bytes), lifetime := l.(storage := l.storage + bytes));
      daily := daily[day := was.(storage := was.storage + bytes)];
    }

    method UpdateDeletedStats(items: seq<ManifestItem>, days: set<int>)
      modifies this
      ensures gauges == Struck(old(gauges), Total(Named(items, days)))
      ensures daily == Forgotten(old(daily), Named(items, days))
    {
      var named := Named(items, days);
      var rows: nat, size: nat, bytes: nat := 0, 0, 0;
      for k := 0 to |named|
        invariant gauges == old(gauges) && daily == Forgotten(old(daily), named[..k])
        invariant Metrics(rows, size, bytes) == Total(named[..k])
      {
        assert named[..k + 1][..k] == named[..k];
        daily := daily - {Day(named[k].lower)};
        rows, size, bytes := rows + named[k].events, size + named[k].ingestion, bytes + named[k].storage;
      }
      assert named[..|named|] == named;
      gauges := gauges.(deleted := Add(gauges.deleted, Metrics(rows, size, bytes)),
                        current := Sub(gauges.current, Metrics(rows, size, bytes)));
    }

    method LoadDailyMetrics(items: seq<ManifestItem>)
      modifies this`daily
      ensures daily == Loaded(old(daily), items)
    {
      for k := 0 to |items|
        invariant daily == Loaded(old(daily), items[..k])
      {
        assert items[..k + 1][..k] == items[..k];
        daily := Counted(daily, Day(items[k].lower), Figures(items[k]));
      }
      assert items[..|items|] == items;
    }
  }

  // ------------------------------------------------------------------ one figure at a time

  datatype Figure = Events | Ingestion | Storage

  function At(m: Metrics, w: Figure): nat {
    match w case Events => m.events case Ingestion => m.ingestion case Storage => m.storage
  }

  function Of(a: Amounts, w: Figure): int {
    match w case Events => a.events case Ingestion => a.ingestion case Storage => a.storage
  }

  ghost function PerDay(daily: Daily, w: Figure): map<int, nat> {
    map d | d in daily :: At(daily[d], w)
  }

  ghost function DailyTotal(daily: Daily, w: Figure): nat {
    MapSum(PerDay(daily, w))
  }

  lemma DailyMinus(daily: Daily, d: int, w: Figure)
    requires d in daily
    ensures DailyTotal(daily, w) == At(daily[d], w) + DailyTotal(daily - {d}, w)
  {
    MapSumMinus(PerDay(daily, w), d);
    assert PerDay(daily, w) - {d} == PerDay(daily - {d}, w);
  }

  lemma CountedTotal(daily: Daily, d: int, m: Metrics, w: Figure)
    ensures DailyTotal(Counted(daily, d, m), w) == DailyTotal(daily, w) + At(m, w)
  {
    var after := Counted(daily, d, m);
    DailyMinus(after, d, w);
    if d in daily {
      DailyMinus(daily, d, w);
      assert after - {d} == daily - {d};
    } else {
      assert after - {d} == daily;
    }
    hide DailyTotal;
  }

  // -------------------------------------------------------------------------- invariant

  /** The item claims no more than its day's counters. */
  predicate Metered(item: ManifestItem, daily: Daily) {
    var m := OfDay(daily, Day(item.lower));
    item.events <= m.events && item.ingestion <= m.ingestion && item.storage <= m.storage
  }

  ghost predicate AllMetered(items: seq<ManifestItem>, daily: Daily) {
    forall item | item in items :: Metered(item, daily)
  }

  ghost predicate OneADay(items: seq<ManifestItem>) {
    forall i, j | 0 <= i < j < |items| :: Day(items[i].lower) != Day(items[j].lower)
  }

  /** Forgetting the days of items takes at least what the items claim off the counters. */
  lemma {:induction false} ForgottenTotal(daily: Daily, items: seq<ManifestItem>, w: Figure)
    requires AllMetered(items, daily) && OneADay(items)
    ensures DailyTotal(Forgotten(daily, items), w) + At(Total(items), w) <= DailyTotal(daily, w)
    ensures forall d :: (forall k | 0 <= k < |items| :: Day(items[k].lower) != d) ==>
                          OfDay(Forgotten(daily, items), d) == OfDay(daily, d)
  {
    if items != [] {
      var rest, last := items[..|items| - 1], items[|items| - 1];
      assert last in items && forall item | item in rest :: item in items;
      ForgottenTotal(daily, rest, w);
      var d, before := Day(last.lower), Forgotten(daily, rest);
      assert OfDay(before, d) == OfDay(daily, d);
      hide DailyTotal; hide Day;
      if d in before {
        DailyMinus(before, d, w);
      } else {
        assert before - {d} == before;
      }
      forall e | forall k | 0 <= k < |items| :: Day(items[k].lower) != e
        ensures OfDay(Forgotten(daily, items), e) == OfDay(daily, e)
      {
        assert Day(items[|items| - 1].lower) != e;
        assert forall k | 0 <= k < |rest| :: rest[k] == items[k];
      }
    }
  }

  lemma {:induction false} LoadedTotal(daily: Daily, items: seq<ManifestItem>, w: Figure)
    ensures DailyTotal(Loaded(daily, items), w) == DailyTotal(daily, w) + At(Total(items), w)
    ensures AllMetered(items, Loaded(daily, items))
  {
    if items != [] {
      var rest, last := items[..|items| - 1], items[|items| - 1];
      LoadedTotal(daily, rest, w);
      CountedTotal(Loaded(daily, rest), Day(last.lower), Figures(last), w);
      assert items == rest + [last];
      hide DailyTotal; hide Day;
    }
  }

  /** The figures of the whole stream. */
  datatype Books = Books(gauges: Gauges, daily: Daily, store: Store, stored: Gauges)

  datatype Entry =
    | Counting(day: int, amount: Metrics)
    | Snapshot(changes: seq<File>, order: seq<Range>)
    | Retention(days: set<int>)
    | Reload

  ghost predicate Possible(e: Entry, s: Store, me: string, timePartition: Option<string>) {
    e.Snapshot? ==>
      && Boundable(e.changes, timePartition) && DistinctWhereNew(s, me, e.changes, timePartition)
      && Enumerates(e.order, FoldChunk(e.changes, timePartition))
  }

  /** Ingestion and uploads count; a snapshot copies the counters of its days into their items
      and stores the gauges; retention strikes its items' figures; a reload starts a new process
      from what is stored. */
  ghost function Booked(b: Books, e: Entry, me: string, timePartition: Option<string>): Books
    requires Possible(e, b.store, me, timePartition)
  {
    match e
    case Counting(day, amount) =>
      b.(gauges := Recorded(b.gauges, amount), daily := Counted(b.daily, day, amount))
    case Snapshot(changes, order) =>
      if changes == [] then b
      else b.(store := Updated(b.store, me, timePartition, changes, order, b.daily), stored := b.gauges)
    case Retention(days) =>
      if days == {} then b
      else
        var named := Named(b.store.items, days);
        var gauges := Struck(b.gauges, Total(named));
        Books(gauges, Forgotten(b.daily, named), Removed(b.store, days), gauges)
    case Reload => b.(gauges := b.stored, daily := Loaded(map[], b.store.items))
  }

  ghost predicate PossibleRun(entries: seq<Entry>, me: string, timePartition: Option<string>)
    decreases |entries|, 0
  {
    entries == [] ||
    (&& PossibleRun(entries[..|entries| - 1], me, timePartition)
     && Possible(entries[|entries| - 1], BooksAfter(entries[..|entries| - 1], me, timePartition).store, me, timePartition))
  }

  ghost function BooksAfter(entries: seq<Entry>, me: string, timePartition: Option<string>): Books
    requires PossibleRun(entries, me, timePartition)
    decreases |entries|, 1
  {
    var zero := Amounts(0, 0, 0);
    if entries == [] then Books(Gauges(zero, zero, zero), map[], Store([], map[]), Gauges(zero, zero, zero))
    else Booked(BooksAfter(entries[..|entries| - 1], me, timePartition), entries[|entries| - 1], me, timePartition)
  }

  ghost predicate Adds(g: Gauges, w: Figure) {
    Of(g.lifetime, w) == Of(g.current, w) + Of(g.deleted, w)
  }

  ghost predicate Balanced(b: Books, w: Figure) {
    && Adds(b.gauges, w) && Adds(b.stored, w)
    && DailyTotal(b.daily, w) <= Of(b.gauges.current, w)
    && At(Total(b.store.items), w) <= Of(b.stored.current, w)
    && Of(b.gauges.deleted, w) >= 0 && Of(b.stored.deleted, w) >= 0
  }

  ghost predicate Sound(b: Books, me: string, timePartition: Option<string>) {
    Inv(b.store, me, timePartition) && AllMetered(b.store.items, b.daily)
  }

  predicate WholeRange(item: ManifestItem) {
    item.lower % NANOS_PER_DAY == 0 && item.upper == item.lower + NANOS_PER_DAY - 1
  }

  lemma ItemsOneADay(s: Store, me: string, timePartition: Option<string>)
    requires Inv(s, me, timePartition)
    ensures OneADay(s.items) && forall item | item in s.items :: WholeRange(item)
    ensures forall item | item in s.items :: item.path == DayPath(me, Day(item.lower))
  {
    hide DayManifest;
    forall i | 0 <= i < |s.items|
      ensures WholeRange(s.items[i]) && s.items[i].path == DayPath(me, Day(s.items[i].lower))
    {
      assert WholeDay(s.items[i], me);
      DayOfMidnight(s.items[i].path.firstDay);
    }
  }

  ghost predicate Filed(items: seq<ManifestItem>, daily: Daily) {
    forall item | item in items :: Metered(item, daily) && WholeRange(item)
  }

  lemma SameDay(item: ManifestItem, lower: int)
    requires WholeRange(item) && item.lower <= lower < item.upper
    ensures Day(item.lower) == Day(lower)
  { }

  lemma ProcessedFiled(s: Store, me: string, lower: int, changes: seq<File>, daily: Daily)
    requires Filed(s.items, daily)
    ensures var (after, entry) := Processed(s, me, lower, changes, MetricsOf(daily, lower));
            Filed(after.items, daily) && (entry.Some? ==> Filed([entry.value], daily))
  {
    var pos := Position(s.items, lower);
    if pos.Some? {
      assert s.items[pos.value] in s.items;
      SameDay(s.items[pos.value], lower);
    }
    hide Day; hide PartitionBounds; hide Contains;
  }

  lemma {:induction false} ProcessedAllFiled(s: Store, me: string, groups: Groups, order: seq<Range>, daily: Daily)
    requires Filed(s.items, daily)
    ensures var (after, entries) := ProcessedAll(s, me, groups, order, daily);
            Filed(after.items, daily) && Filed(entries, daily)
  {
    if order != [] {
      ProcessedAllFiled(s, me, groups, order[..|order| - 1], daily);
      var (before, entries) := ProcessedAll(s, me, groups, order[..|order| - 1], daily);
      var range := order[|order| - 1];
      ProcessedFiled(before, me, range.0, Get(groups, range), daily);
      hide Processed; hide Metered; hide WholeRange;
    }
  }

  lemma ItemsWithinCounters(items: seq<ManifestItem>, daily: Daily, w: Figure)
    requires AllMetered(items, daily) && OneADay(items)
    ensures At(Total(items), w) <= DailyTotal(daily, w)
  {
    ForgottenTotal(daily, items, w);
  }

  lemma CountingBalances(b: Books, day: int, amount: Metrics, me: string, timePartition: Option<string>, w: Figure)
    requires Sound(b, me, timePartition) && Balanced(b, w)
    ensures var after := Booked(b, Counting(day, amount), me, timePartition);
            Sound(after, me, timePartition) && Balanced(after, w)
  {
    CountedTotal(b.daily, day, amount, w);
    hide DailyTotal; hide Inv; hide Total; hide Day;
  }

  lemma SnapshotBalances(b: Books, e: Entry, me: string, timePartition: Option<string>, w: Figure)
    requires e.Snapshot? && Possible(e, b.store, me, timePartition) && Sound(b, me, timePartition) && Balanced(b, w)
    ensures var after := Booked(b, e, me, timePartition); Sound(after, me, timePartition) && Balanced(after, w)
  {
    if e.changes != [] {
      UpdatedKeeps(b.store, me, timePartition, e.changes, e.order, b.daily);
      ItemsOneADay(b.store, me, timePartition);
      ProcessedAllFiled(b.store, me, FoldChunk(e.changes, timePartition), e.order, b.daily);
      var after := Booked(b, e, me, timePartition);
      hide Inv; hide ProcessedAll; hide DailyTotal; hide Total; hide Metered; hide WholeRange; hide FoldChunk;
      ItemsOneADay(after.store, me, timePartition);
      ItemsWithinCounters(after.store.items, after.daily, w);
    }
  }

  lemma KeptOrNamed(items: seq<ManifestItem>, days: set<int>)
    ensures forall item | item in Named(items, days) :: item in items && NamesADay(item.path, days)
    ensures forall item | item in ItemsKept(items, days) :: item in items && !NamesADay(item.path, days)
    ensures OneADay(items) ==> OneADay(Named(items, days)) && OneADay(ItemsKept(items, days))
  {
    var day := (item: ManifestItem) => Day(item.lower);
    var named, kept := (item: ManifestItem) => NamesADay(item.path, days), (item: ManifestItem) => !NamesADay(item.path, days);
    FilterMembers(items, named);
    FilterMembers(items, kept);
    if OneADay(items) {
      assert Distinct(items, day);
      FilterDistinct(items, named, day);
      FilterDistinct(items, kept, day);
    }
  }

  lemma RetentionBalances(b: Books, days: set<int>, me: string, timePartition: Option<string>, w: Figure)
    requires Sound(b, me, timePartition) && Balanced(b, w)
    ensures var after := Booked(b, Retention(days), me, timePartition);
            Sound(after, me, timePartition) && Balanced(after, w)
  {
    if days != {} {
      var items, named, kept := b.store.items, Named(b.store.items, days), ItemsKept(b.store.items, days);
      ItemsOneADay(b.store, me, timePartition);
      KeptOrNamed(items, days);
      RetainKeepsInv(b.store, me, timePartition, days);
      hide Inv; hide DailyTotal; hide Total; hide Metered; hide WholeRange; hide Named; hide ItemsKept; hide OneADay;
      ForgottenTotal(b.daily, named, w);
      var daily := Forgotten(b.daily, named);
      forall item | item in kept ensures Metered(item, daily) {
        NotForgotten(item, named, days, me, b.daily, daily);
      }
      ItemsWithinCounters(kept, daily, w);
    }
  }

  lemma NotForgotten(item: ManifestItem, named: seq<ManifestItem>, days: set<int>, me: string, daily: Daily, after: Daily)
    requires item.path == DayPath(me, Day(item.lower)) && !NamesADay(item.path, days) && Metered(item, daily)
    requires forall other | other in named :: NamesADay(other.path, days) && other.path == DayPath(me, Day(other.lower))
    requires forall d :: (forall k | 0 <= k < |named| :: Day(named[k].lower) != d) ==> OfDay(after, d) == OfDay(daily, d)
    ensures Metered(item, after)
  {
    hide Day;
    forall k | 0 <= k < |named| ensures Day(named[k].lower) != Day(item.lower) {
      assert named[k] in named;
    }
  }

  lemma ReloadBalances(b: Books, me: string, timePartition: Option<string>, w: Figure)
    requires Sound(b, me, timePartition) && Balanced(b, w)
    ensures var after := Booked(b, Reload, me, timePartition);
            Sound(after, me, timePartition) && Balanced(after, w)
  {
    LoadedTotal(map[], b.store.items, w);
    assert PerDay(map[], w) == map[];
    hide DailyTotal; hide Total; hide Inv; hide Loaded; hide Metered;
  }

  /** Over every run: lifetime is current plus deleted; what the snapshot's items claim is within
      the day counters, and those within the current gauge; so no gauge is ever negative. */
  lemma {:induction false} BooksBalance(entries: seq<Entry>, me: string, timePartition: Option<string>, w: Figure)
    requires PossibleRun(entries, me, timePartition)
    ensures var b := BooksAfter(entries, me, timePartition);
            && Sound(b, me, timePartition) && Balanced(b, w)
            && Of(b.gauges.lifetime, w) == Of(b.gauges.current, w) + Of(b.gauges.deleted, w)
            && 0 <= At(Total(b.store.items), w) <= DailyTotal(b.daily, w) <= Of(b.gauges.current, w)
  {
    if entries == [] {
      assert PerDay(map[], w) == map[];
    } else {
      var rest, last := entries[..|entries| - 1], entries[|entries| - 1];
      BooksBalance(rest, me, timePartition, w);
      var before := BooksAfter(rest, me, timePartition);
      match last {
        case Counting(day, amount) => CountingBalances(before, day, amount, me, timePartition, w);
        case Snapshot(_, _) => SnapshotBalances(before, last, me, timePartition, w);
        case Retention(days) => RetentionBalances(before, days, me, timePartition, w);
        case Reload => ReloadBalances(before, me, timePartition, w);
      }
      var b := BooksAfter(entries, me, timePartition);
      hide Booked; hide DailyTotal; hide Total;
      ItemsOneADay(b.store, me, timePartition);
      ItemsWithinCounters(b.store.items, b.daily, w);
    }
  }

  /** What has been counted, and what retention has struck off. */
  datatype Tally = Tally(counted: int, retired: int)

  /** The tallies as they are, and as last stored: snapshots and retention store them, and a
      reload goes back to what is stored. */
  ghost function Tallies(entries: seq<Entry>, me: string, timePartition: Option<string>, w: Figure): (Tally, Tally)
    requires PossibleRun(entries, me, timePartition)
  {
    if entries == [] then (Tally(0, 0), Tally(0, 0))
    else
      var rest := entries[..|entries| - 1];
      var (live, kept) := Tallies(rest, me, timePartition, w);
      Retallied(live, kept, entries[|entries| - 1], BooksAfter(rest, me, timePartition).store.items, w)
  }

  function Retallied(live: Tally, kept: Tally, e: Entry, items: seq<ManifestItem>, w: Figure): (Tally, Tally) {
    match e
    case Counting(_, amount) => (live.(counted := live.counted + At(amount, w)), kept)
    case Snapshot(changes, _) => (live, if changes == [] then kept else live)
    case Retention(days) =>
      var struck := live.(retired := live.retired + Claimed(items, days, w));
      if days == {} then (live, kept) else (struck, struck)
    case Reload => (kept, kept)
  }

  /** What the items of some days claim. */
  function Claimed(items: seq<ManifestItem>, days: set<int>, w: Figure): nat {
    if items == [] then 0
    else
      var last := items[|items| - 1];
      Claimed(items[..|items| - 1], days, w) + if last.path.firstDay in days then At(Figures(last), w) else 0
  }

  lemma {:induction false} ClaimedIsTotal(items: seq<ManifestItem>, days: set<int>, w: Figure)
    ensures Claimed(items, days, w) == At(Total(Named(items, days)), w)
  {
    if items != [] {
      var rest, last := items[..|items| - 1], items[|items| - 1];
      ClaimedIsTotal(rest, days, w);
      var named := Named(rest, days);
      hide At; hide Figures;
      if NamesADay(last.path, days) {
        assert Named(items, days) == named + [last];
        TotalMore(named, last);
        SumAt(Total(named), Figures(last), w);
      } else {
        assert Named(items, days) == named;
      }
      hide Total; hide Sum; hide Named;
    }
  }

  lemma TotalMore(items: seq<ManifestItem>, last: ManifestItem)
    ensures Total(items + [last]) == Sum(Total(items), Figures(last))
  {
    assert (items + [last])[..|items|] == items;
  }

  lemma SumAt(m: Metrics, n: Metrics, w: Figure)
    ensures At(Sum(m, n), w) == At(m, w) + At(n, w)
  { }

  ghost predicate Tallied(g: Gauges, t: Tally, w: Figure) {
    Of(g.lifetime, w) == t.counted && Of(g.deleted, w) == t.retired && Of(g.current, w) == t.counted - t.retired
  }

  /** Over every run the gauges are the sums of all that was counted and of all that the retired
      items claimed, but for what a reload forgot since the last snapshot or retention. */
  lemma {:induction false} GaugesExact(entries: seq<Entry>, me: string, timePartition: Option<string>, w: Figure)
    requires PossibleRun(entries, me, timePartition)
    ensures var b, t := BooksAfter(entries, me, timePartition), Tallies(entries, me, timePartition, w);
            Tallied(b.gauges, t.0, w) && Tallied(b.stored, t.1, w)
  {
    if entries != [] {
      var rest, last := entries[..|entries| - 1], entries[|entries| - 1];
      GaugesExact(rest, me, timePartition, w);
      var before := BooksAfter(rest, me, timePartition);
      var (live, kept) := Tallies(rest, me, timePartition, w);
      BookedGauges(before, last, me, timePartition, w, live, kept);
      hide Booked; hide Retallied; hide Tallied;
    }
  }

  lemma BookedGauges(b: Books, e: Entry, me: string, timePartition: Option<string>, w: Figure, live: Tally, kept: Tally)
    requires Possible(e, b.store, me, timePartition) && Tallied(b.gauges, live, w) && Tallied(b.stored, kept, w)
    ensures var after, t := Booked(b, e, me, timePartition), Retallied(live, kept, e, b.store.items, w);
            Tallied(after.gauges, t.0, w) && Tallied(after.stored, t.1, w)
  {
    if e.Retention? { ClaimedIsTotal(b.store.items, e.days, w); }
    hide Total; hide Claimed; hide Named; hide Updated; hide Forgotten; hide Loaded; hide Possible; hide Removed;
  }

  lemma GaugesFit(entries: seq<Entry>, me: string, timePartition: Option<string>, w: Figure)
    requires PossibleRun(entries, me, timePartition)
    requires Of(BooksAfter(entries, me, timePartition).gauges.lifetime, w) < TWO_TO_64
    ensures var g := BooksAfter(entries, me, timePartition).gauges;
            && 0 <= Of(g.current, w) < TWO_TO_64 && 0 <= Of(g.deleted, w) < TWO_TO_64
            && 0 <= Of(g.lifetime, w) < TWO_TO_64
  {
    BooksBalance(entries, me, timePartition, w);
    hide BooksAfter; hide Sound; hide DailyTotal; hide Total;
  }

  /** The unsigned figures that are stored are the gauges themselves, as long as the lifetime
      figures fit: no cast wraps. */
  lemma CastsExact(entries: seq<Entry>, me: string, timePartition: Option<string>)
    requires PossibleRun(entries, me, timePartition)
    requires forall w: Figure :: Of(BooksAfter(entries, me, timePartition).gauges.lifetime, w) < TWO_TO_64
    ensures var g := BooksAfter(entries, me, timePartition).gauges;
            Unsigned(g.current) == g.current && Unsigned(g.deleted) == g.deleted && Unsigned(g.lifetime) == g.lifetime
  {
    hide *;
    GaugesFit(entries, me, timePartition, Events);
    GaugesFit(entries, me, timePartition, Ingestion);
    GaugesFit(entries, me, timePartition, Storage);
    var g := BooksAfter(entries, me, timePartition).gauges;
    UnsignedFits(g.current);
    UnsignedFits(g.deleted);
    UnsignedFits(g.lifetime);
  }

  lemma UnsignedFits(a: Amounts)
    ensures 0 <= Of(a, Events) < TWO_TO_64 && 0 <= Of(a, Ingestion) < TWO_TO_64 && 0 <= Of(a, Storage) < TWO_TO_64
            ==> Unsigned(a) == a
  { }
}

/** The figures and the order of a snapshot's items: each listed day carries the counters as they
    stood when a batch last touched it, and new days join at the end, in the order of the groups. */
module SnapshotFigures {
  import opened Values
  import opened Seqs
  import opened TimeFilters
  import opened Grouping
  import opened ManifestFile
  import opened Catalog
  import opened CatalogRuns

  function Figures(item: ManifestItem): Metrics {
    Metrics(item.events, item.ingestion, item.storage)
  }

  /** `after` differs from `before` in the items of the marked days only, which carry their
      counters. */
  ghost predicate Carried(before: seq<ManifestItem>, after: seq<ManifestItem>, marked: seq<int>, counters: int -> Metrics) {
    && (forall item | item in after ::
          if item.path.firstDay in marked then Figures(item) == counters(item.path.firstDay) else item in before)
    && (forall item | item in before && item.path.firstDay !in marked :: item in after)
  }

  function Days(items: seq<ManifestItem>): seq<int> {
    seq(|items|, i requires 0 <= i < |items| => items[i].path.firstDay)
  }

  lemma ReplacedCarries(items: seq<ManifestItem>, pos: nat, updated: ManifestItem, d: int)
    requires pos < |items| && items[pos].path == updated.path && updated.path.firstDay == d
    requires forall i | 0 <= i < |items| && i != pos :: items[i].path.firstDay != d
    ensures Carried(items, items[pos := updated], [d], _ => Figures(updated)) && Days(items[pos := updated]) == Days(items)
  {
    hide Figures;
    var after := items[pos := updated];
    forall item | item in items && item.path.firstDay !in [d] ensures item in after {
      var i :| 0 <= i < |items| && items[i] == item;
      assert after[i] == item;
    }
  }

  lemma AppendedCarries(items: seq<ManifestItem>, added: ManifestItem, d: int)
    requires added.path.firstDay == d
    requires forall i | 0 <= i < |items| :: items[i].path.firstDay != d
    ensures Carried(items, items + [added], [d], _ => Figures(added)) && Days(items + [added]) == Days(items) + [d]
  {
    hide Figures;
  }

  lemma ProcessedOldCarries(s: Store, entries: seq<ManifestItem>, me: string, timePartition: Option<string>,
                            d: int, changes: seq<File>, m: Metrics, pos: nat)
    requires Inv(View(s, entries), me, timePartition)
    requires Position(s.items, d * NANOS_PER_DAY) == Some(pos) && s.items[pos].path == DayPath(me, d)
    ensures var before, after := View(s, entries).items, ProcessedView(s, entries, me, d, changes, m).items;
            Carried(before, after, [d], _ => m) && Days(after) == Days(before)
  {
    var before, after := View(s, entries).items, ProcessedView(s, entries, me, d, changes, m).items;
    assert before[pos] == s.items[pos] && Contains(me, me) && entries + [] == entries;
    assert WholeDay(before[pos], me) && before[pos].path in s.manifests;
    var updated := s.items[pos].(events := m.events, ingestion := m.ingestion, storage := m.storage);
    assert after == before[pos := updated];
    forall i | 0 <= i < |before| && i != pos ensures before[i].path.firstDay != d {
      assert WholeDay(before[i], me) && before[i].path != before[pos].path;
    }
    hide Inv; hide Contains; hide ProcessedView; hide Carried; hide Days;
    ReplacedCarries(before, pos, updated, d);
    CarriedSame(before, after, d, _ => Figures(updated), _ => m);
  }

  lemma CarriedSame(before: seq<ManifestItem>, after: seq<ManifestItem>, d: int, f: int -> Metrics, g: int -> Metrics)
    requires Carried(before, after, [d], f) && f(d) == g(d)
    ensures Carried(before, after, [d], g)
  { }

  lemma ProcessedNewCarries(s: Store, entries: seq<ManifestItem>, me: string, timePartition: Option<string>,
                            d: int, changes: seq<File>, m: Metrics)
    requires Inv(View(s, entries), me, timePartition)
    requires Position(s.items, d * NANOS_PER_DAY).None? && !Listed(View(s, entries), DayPath(me, d))
    ensures var before, after := View(s, entries).items, ProcessedView(s, entries, me, d, changes, m).items;
            Carried(before, after, [d], _ => m) && Days(after) == Days(before) + [d]
  {
    var before, after := View(s, entries).items, ProcessedView(s, entries, me, d, changes, m).items;
    var added := NewItem(me, d * NANOS_PER_DAY, m);
    NewItemIsWholeDay(me, d, m);
    assert after == before + [added] && Figures(added) == m;
    forall i | 0 <= i < |before| ensures before[i].path.firstDay != d { assert WholeDay(before[i], me); }
    hide Inv; hide ProcessedView; hide Carried; hide Days; hide NewItem;
    AppendedCarries(before, added, d);
    CarriedSame(before, after, d, _ => Figures(added), _ => m);
  }

  lemma ProcessedCarries(s: Store, entries: seq<ManifestItem>, me: string, timePartition: Option<string>,
                         d: int, changes: seq<File>, m: Metrics)
    requires Inv(View(s, entries), me, timePartition)
    requires forall i | 0 <= i < |entries| :: entries[i].path != DayPath(me, d)
    ensures var before, after := View(s, entries).items, ProcessedView(s, entries, me, d, changes, m).items;
            && Carried(before, after, [d], _ => m)
            && Days(after) == Days(before) + if d in Days(before) then [] else [d]
  {
    ViewParts(s, entries, me, timePartition);
    PositionIsListed(s, me, timePartition, d);
    ListedDays(View(s, entries), me, timePartition, d);
    hide Inv; hide ProcessedView; hide Carried; hide View; hide Days; hide Listed;
    match Position(s.items, d * NANOS_PER_DAY)
    case Some(pos) =>
      ProcessedOldCarries(s, entries, me, timePartition, d, changes, m, pos);
      assert Days(View(s, entries).items) + [] == Days(View(s, entries).items);
    case None => ProcessedNewCarries(s, entries, me, timePartition, d, changes, m);
  }

  lemma ListedDays(s: Store, me: string, timePartition: Option<string>, d: int)
    requires Inv(s, me, timePartition)
    ensures Listed(s, DayPath(me, d)) <==> d in Days(s.items)
  {
    hide DayManifest;
    var days := Days(s.items);
    if d in days {
      var i :| 0 <= i < |days| && days[i] == d;
      assert WholeDay(s.items[i], me);
    }
    if i :| 0 <= i < |s.items| && s.items[i].path == DayPath(me, d) { assert days[i] == d; }
  }

  /** The days of an order's groups. */
  function DaysIn(order: seq<Range>): seq<int> {
    seq(|order|, i requires 0 <= i < |order| => Day(order[i].0))
  }

  function Unlisted(days: seq<int>, listed: seq<int>): seq<int> {
    Filter(days, (d: int) => d !in listed)
  }

  ghost function Counters(metrics: map<int, Metrics>): int -> Metrics {
    (d: int) => MetricsOf(metrics, d * NANOS_PER_DAY)
  }

  lemma CarriedOn(first: seq<ManifestItem>, second: seq<ManifestItem>, third: seq<ManifestItem>,
                  days: seq<int>, d: int, counters: int -> Metrics)
    requires Carried(first, second, days, counters) && Carried(second, third, [d], _ => counters(d))
    ensures Carried(first, third, days + [d], counters)
  { }

  lemma UnlistedMore(days: seq<int>, d: int, listed: seq<int>)
    requires d !in days
    ensures var now := listed + Unlisted(days, listed);
            listed + Unlisted(days + [d], listed) == now + if d in now then [] else [d]
  {
    FilterMembers(days, (d: int) => d !in listed);
    assert (days + [d])[..|days|] == days;
    assert listed + (Unlisted(days, listed) + [d]) == listed + Unlisted(days, listed) + [d];
    assert Unlisted(days, listed) + [] == Unlisted(days, listed);
  }

  lemma DaysInMore(rest: seq<Range>, k: Range)
    requires k !in rest && forall j | j in rest + [k] :: j == DayRange(Day(j.0))
    ensures DaysIn(rest + [k]) == DaysIn(rest) + [Day(k.0)] && Day(k.0) !in DaysIn(rest)
  {
    hide Day; hide DayRange;
    assert k in rest + [k];
    forall i | 0 <= i < |rest| ensures Day(rest[i].0) != Day(k.0) {
      assert rest[i] in rest + [k] && rest[i] in rest;
    }
  }

  lemma {:induction false} AllCarried(s: Store, me: string, timePartition: Option<string>, groups: Groups,
                                      order: seq<Range>, metrics: map<int, Metrics>)
    requires Inv(s, me, timePartition) && OrderFits(s, me, groups, order, timePartition)
    ensures var (after, entries) := ProcessedAll(s, me, groups, order, metrics);
            && Carried(s.items, View(after, entries).items, DaysIn(order), Counters(metrics))
            && Days(View(after, entries).items) == Days(s.items) + Unlisted(DaysIn(order), Days(s.items))
  {
    hide Listed; hide OnDay; hide DistinctPaths; hide Inv; hide Processed; hide ProcessedView; hide Carried; hide Day;
    hide DayRange; hide Days; hide Unlisted; hide Counters; hide UpsertAll;
    if order == [] {
      assert View(s, []) == s && DaysIn(order) == [];
      NothingCarried(s.items, Counters(metrics));
    } else {
      var rest, k := order[..|order| - 1], order[|order| - 1];
      var d := Day(k.0);
      assert order == rest + [k];
      AllCarried(s, me, timePartition, groups, rest, metrics);
      ProcessedAllKeeps(s, me, timePartition, groups, rest, metrics);
      var (before, pending) := ProcessedAll(s, me, groups, rest, metrics);
      NoEntryYet(s, me, groups, rest, k, metrics);
      ProcessedCarries(before, pending, me, timePartition, d, Get(groups, k), MetricsOf(metrics, k.0));
      OnePartitionMore(s, me, groups, order, metrics);
      DaysInMore(rest, k);
      hide ProcessedAll; hide OrderFits; hide DaysIn; hide View;
      var (after, entries) := ProcessedAll(s, me, groups, order, metrics);
      CounterOf(metrics, k);
      CarriedSame(View(before, pending).items, View(after, entries).items, d, _ => MetricsOf(metrics, k.0), _ => Counters(metrics)(d));
      CarriedOn(s.items, View(before, pending).items, View(after, entries).items, DaysIn(rest), d, Counters(metrics));
      UnlistedMore(DaysIn(rest), d, Days(s.items));
    }
  }

  lemma CounterOf(metrics: map<int, Metrics>, k: Range)
    requires k == DayRange(Day(k.0))
    ensures Counters(metrics)(Day(k.0)) == MetricsOf(metrics, k.0)
  { }

  lemma NothingCarried(items: seq<ManifestItem>, counters: int -> Metrics)
    ensures Carried(items, items, [], counters)
    ensures Days(items) + Unlisted(DaysIn([]), Days(items)) == Days(items)
  { }

  /** The days a batch has changes of. */
  function Touched(changes: seq<File>, timePartition: Option<string>): set<int> {
    set f | f in changes :: FileDay(f, timePartition)
  }

  lemma OrderDays(changes: seq<File>, timePartition: Option<string>, order: seq<Range>, d: int)
    requires Boundable(changes, timePartition) && Enumerates(order, FoldChunk(changes, timePartition))
    ensures d in DaysIn(order) <==> d in Touched(changes, timePartition)
  {
    if d in Touched(changes, timePartition) {
      var f :| f in changes && FileDay(f, timePartition) == d;
      KeyIsDayRange(f, timePartition);
      GroupsByDay(changes, timePartition, DayRange(d));
      DayOfMidnight(d);
      var i :| 0 <= i < |order| && order[i] == DayRange(d);
      assert DaysIn(order)[i] == d;
    }
    if d in DaysIn(order) {
      var days := DaysIn(order);
      var i :| 0 <= i < |days| && days[i] == d;
      assert order[i] in order;
      GroupsByDay(changes, timePartition, order[i]);
      var f :| f in changes && KeyOf(f, timePartition) == order[i];
      KeyIsDayRange(f, timePartition);
      DayOfMidnight(FileDay(f, timePartition));
    }
  }

  /** One update replaces the figures of the touched days by their counters and leaves all other
      items as they were; listed days keep their places, and new ones follow in group order. */
  lemma UpdatedCarries(s: Store, me: string, timePartition: Option<string>, changes: seq<File>,
                       order: seq<Range>, metrics: map<int, Metrics>)
    requires Inv(s, me, timePartition) && Admissible(Ingested(changes, order, metrics), s, me, timePartition)
    ensures var after := Updated(s, me, timePartition, changes, order, metrics);
            && Carried(s.items, after.items, DaysIn(order), Counters(metrics))
            && Days(after.items) == Days(s.items) + Unlisted(DaysIn(order), Days(s.items))
            && forall d :: d in DaysIn(order) <==> d in Touched(changes, timePartition)
  {
    forall d ensures d in DaysIn(order) <==> d in Touched(changes, timePartition) {
      OrderDays(changes, timePartition, order, d);
    }
    if changes != [] {
      OrderFitsBatch(s, me, changes, timePartition, order);
      AllCarried(s, me, timePartition, FoldChunk(changes, timePartition), order, metrics);
      hide Inv; hide OrderFits; hide Enumerates; hide Carried; hide ProcessedAll; hide Touched; hide Days;
    } else {
      NothingTouched(timePartition, order);
      NothingCarried(s.items, Counters(metrics));
    }
  }

  lemma SomeMember(order: seq<Range>)
    ensures order == [] || exists k :: k in order
  {
    if order != [] { assert order[0] in order; }
  }

  lemma NothingTouched(timePartition: Option<string>, order: seq<Range>)
    requires Enumerates(order, FoldChunk([], timePartition))
    ensures order == []
  {
    SomeMember(order);
  }

  /** For each listed day, its counters when a batch last touched it. */
  ghost function FiguresAfter(events: seq<Event>, timePartition: Option<string>): map<int, Metrics> {
    if events == [] then map[]
    else
      var before := FiguresAfter(events[..|events| - 1], timePartition);
      match events[|events| - 1]
      case Ingested(changes, _, metrics) =>
        map d | d in before.Keys + Touched(changes, timePartition) ::
          if d !in Touched(changes, timePartition) then before[d]
          else if d in metrics then metrics[d] else Metrics(0, 0, 0)
      case Retained(days) => map d | d in before && d !in days :: before[d]
  }

  ghost predicate Shows(items: seq<ManifestItem>, figures: map<int, Metrics>) {
    && (forall item | item in items :: item.path.firstDay in figures && Figures(item) == figures[item.path.firstDay])
    && (forall d | d in figures :: d in Days(items))
  }

  lemma CounterIs(metrics: map<int, Metrics>, d: int)
    ensures Counters(metrics)(d) == if d in metrics then metrics[d] else Metrics(0, 0, 0)
  {
    DayOfMidnight(d);
  }

  /** Over every run: the listed days are those of the batches, less those retention dropped, and
      each item carries the counters of its day as of the last batch that touched it. */
  lemma {:induction false} SnapshotShows(events: seq<Event>, me: string, timePartition: Option<string>)
    requires AdmissibleRun(events, me, timePartition)
    ensures Shows(StoreAfter(events, me, timePartition).items, FiguresAfter(events, timePartition))
  {
    if events != [] {
      var rest, last := events[..|events| - 1], events[|events| - 1];
      SnapshotShows(rest, me, timePartition);
      SnapshotInvariant(rest, me, timePartition);
      var before, figures := StoreAfter(rest, me, timePartition), FiguresAfter(rest, timePartition);
      match last
      case Ingested(changes, order, metrics) =>
        UpdatedCarries(before, me, timePartition, changes, order, metrics);
        IngestShows(before.items, StoreAfter(events, me, timePartition).items, DaysIn(order), metrics,
                    Touched(changes, timePartition), figures, FiguresAfter(events, timePartition));
      case Retained(days) =>
        KeptItems(before, me, timePartition, days);
        RetainShows(before.items, StoreAfter(events, me, timePartition).items, days, figures);
    }
  }

  lemma IngestShows(before: seq<ManifestItem>, after: seq<ManifestItem>, days: seq<int>, metrics: map<int, Metrics>,
                    touched: set<int>, figures: map<int, Metrics>, figures': map<int, Metrics>)
    requires Shows(before, figures) && Carried(before, after, days, Counters(metrics))
    requires Days(after) == Days(before) + Unlisted(days, Days(before)) && forall d :: d in days <==> d in touched
    requires figures' == map d | d in figures.Keys + touched ::
               if d !in touched then figures[d] else if d in metrics then metrics[d] else Metrics(0, 0, 0)
    ensures Shows(after, figures')
  {
    FilterMembers(days, (d: int) => d !in Days(before));
    forall item | item in after
      ensures item.path.firstDay in figures' && Figures(item) == figures'[item.path.firstDay]
    {
      CounterIs(metrics, item.path.firstDay);
    }
    hide Counters;
    forall d | d in figures' ensures d in Days(after) {
      if d in figures { assert d in Days(before); } else { assert d in days; }
    }
  }

  lemma RetainShows(before: seq<ManifestItem>, after: seq<ManifestItem>, dropped: set<int>, figures: map<int, Metrics>)
    requires Shows(before, figures)
    requires forall i | 0 <= i < |after| :: after[i] in before && after[i].path.firstDay !in dropped
    requires forall i | 0 <= i < |before| && before[i].path.firstDay !in dropped :: before[i] in after
    ensures Shows(after, map d | d in figures && d !in dropped :: figures[d])
  {
    forall d | d in figures && d !in dropped ensures d in Days(after) {
      var i :| 0 <= i < |Days(before)| && Days(before)[i] == d;
      var j :| 0 <= j < |after| && after[j] == before[i];
      assert Days(after)[j] == d;
    }
  }

  // ------------------------------------------------------------------- manifest objects

  /** The objects in the store are exactly the manifests of the listed days. */
  ghost predicate NoOrphans(s: Store, me: string) {
    forall p :: p in s.manifests <==> exists d | d in Days(s.items) :: p == DayPath(me, d)
  }

  lemma ProcessedObjects(s: Store, entries: seq<ManifestItem>, me: string, timePartition: Option<string>,
                         d: int, changes: seq<File>, m: Metrics)
    requires Inv(View(s, entries), me, timePartition)
    ensures forall p :: p in ProcessedView(s, entries, me, d, changes, m).manifests <==> p in s.manifests || p == DayPath(me, d)
  {
    ViewParts(s, entries, me, timePartition);
    PositionIsListed(s, me, timePartition, d);
    NewItemIsWholeDay(me, d, m);
    DayOfMidnight(d);
    hide DayManifest; hide UpsertAll;
  }

  lemma {:induction false} AllObjects(s: Store, me: string, timePartition: Option<string>, groups: Groups,
                                      order: seq<Range>, metrics: map<int, Metrics>)
    requires Inv(s, me, timePartition) && OrderFits(s, me, groups, order, timePartition)
    ensures var after := ProcessedAll(s, me, groups, order, metrics).0;
            forall p :: p in after.manifests <==> p in s.manifests || exists d | d in DaysIn(order) :: p == DayPath(me, d)
  {
    hide Listed; hide OnDay; hide DistinctPaths; hide Inv; hide Processed; hide ProcessedView; hide Day; hide DayRange;
    if order != [] {
      var rest, k := order[..|order| - 1], order[|order| - 1];
      assert order == rest + [k];
      AllObjects(s, me, timePartition, groups, rest, metrics);
      ProcessedAllKeeps(s, me, timePartition, groups, rest, metrics);
      var (before, pending) := ProcessedAll(s, me, groups, rest, metrics);
      ProcessedObjects(before, pending, me, timePartition, Day(k.0), Get(groups, k), MetricsOf(metrics, k.0));
      OnePartitionMore(s, me, groups, order, metrics);
      DaysInMore(rest, k);
      hide ProcessedAll; hide DaysIn; hide OrderFits;
    }
  }

  lemma UnlistedMembers(days: seq<int>, listed: seq<int>, d: int)
    ensures d in listed + Unlisted(days, listed) <==> d in listed || d in days
  {
    FilterMembers(days, (d: int) => d !in listed);
  }

  /** With the days of an order added to the listed ones, and their objects to the store. */
  lemma ObjectsJoin(s: Store, after: Store, me: string, days: seq<int>)
    requires NoOrphans(s, me) && Days(after.items) == Days(s.items) + Unlisted(days, Days(s.items))
    requires forall p :: p in after.manifests <==> p in s.manifests || exists d | d in days :: p == DayPath(me, d)
    ensures NoOrphans(after, me)
  {
    forall d ensures d in Days(after.items) <==> d in Days(s.items) || d in days {
      UnlistedMembers(days, Days(s.items), d);
    }
    hide Days; hide Unlisted;
  }

  lemma IngestObjects(s: Store, me: string, timePartition: Option<string>, changes: seq<File>,
                      order: seq<Range>, metrics: map<int, Metrics>)
    requires Inv(s, me, timePartition) && Admissible(Ingested(changes, order, metrics), s, me, timePartition)
    requires NoOrphans(s, me)
    ensures NoOrphans(Updated(s, me, timePartition, changes, order, metrics), me)
  {
    if changes != [] {
      OrderFitsBatch(s, me, changes, timePartition, order);
      AllObjects(s, me, timePartition, FoldChunk(changes, timePartition), order, metrics);
      UpdatedCarries(s, me, timePartition, changes, order, metrics);
      var after := Updated(s, me, timePartition, changes, order, metrics);
      assert after.manifests == ProcessedAll(s, me, FoldChunk(changes, timePartition), order, metrics).0.manifests;
      hide *;
      ObjectsJoin(s, after, me, DaysIn(order));
    }
  }

  lemma RetainObjects(s: Store, me: string, timePartition: Option<string>, days: set<int>)
    requires Inv(s, me, timePartition) && NoOrphans(s, me)
    ensures NoOrphans(Removed(s, days), me)
  {
    KeptItems(s, me, timePartition, days);
    var after := Removed(s, days);
    hide Inv; hide ItemsKept;
    forall d ensures d in Days(after.items) <==> d in Days(s.items) && d !in days {
      if d in Days(after.items) {
        var i :| 0 <= i < |Days(after.items)| && Days(after.items)[i] == d;
        var j :| 0 <= j < |s.items| && s.items[j] == after.items[i];
        assert Days(s.items)[j] == d;
      }
      if d in Days(s.items) && d !in days {
        var i :| 0 <= i < |Days(s.items)| && Days(s.items)[i] == d;
        var j :| 0 <= j < |after.items| && after.items[j] == s.items[i];
        assert Days(after.items)[j] == d;
      }
    }
    hide Days;
  }

  /** Over every run no manifest is left behind by retention, and none listed is missing. */
  lemma {:induction false} ObjectsExact(events: seq<Event>, me: string, timePartition: Option<string>)
    requires AdmissibleRun(events, me, timePartition)
    ensures NoOrphans(StoreAfter(events, me, timePartition), me)
  {
    if events != [] {
      var rest, last := events[..|events| - 1], events[|events| - 1];
      ObjectsExact(rest, me, timePartition);
      SnapshotInvariant(rest, me, timePartition);
      var before := StoreAfter(rest, me, timePartition);
      hide NoOrphans; hide Inv; hide Updated; hide Removed;
      match last
      case Ingested(changes, order, metrics) => IngestObjects(before, me, timePartition, changes, order, metrics);
      case Retained(days) => RetainObjects(before, me, timePartition, days);
    }
  }
}

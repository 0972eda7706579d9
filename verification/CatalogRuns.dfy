/** What every run of the catalog keeps: starting empty, on one node, the snapshot stays an
    exact index of the latest change of every path on every day. */
module CatalogRuns {
  import opened Values
  import opened Seqs
  import opened Pruning
  import opened TimeFilters
  import opened Grouping
  import opened ManifestFile
  import opened Catalog

  // ------------------------------------------------------------------- one partition

  lemma ViewParts(s: Store, entries: seq<ManifestItem>, me: string, timePartition: Option<string>)
    requires Inv(View(s, entries), me, timePartition)
    ensures Inv(s, me, timePartition)
    ensures forall p :: Listed(View(s, entries), p) <==> Listed(s, p) || exists i | 0 <= i < |entries| :: entries[i].path == p
  {
    var v := View(s, entries);
    forall i | 0 <= i < |s.items| ensures s.items[i] == v.items[i] { }
    forall p ensures Listed(v, p) <==> Listed(s, p) || exists i | 0 <= i < |entries| :: entries[i].path == p {
      if i :| 0 <= i < |entries| && entries[i].path == p { assert v.items[|s.items| + i].path == p; }
      if i :| 0 <= i < |s.items| && s.items[i].path == p { assert v.items[i].path == p; }
    }
  }

  /** The view of a store after one partition has been processed. */
  function ProcessedView(s: Store, entries: seq<ManifestItem>, me: string, d: int, changes: seq<File>, m: Metrics): Store {
    var (after, entry) := Processed(s, me, d * NANOS_PER_DAY, changes, m);
    View(after, entries + match entry { case Some(item) => [item] case None => [] })
  }

  lemma NewItemIsWholeDay(me: string, d: int, m: Metrics)
    ensures WholeDay(NewItem(me, d * NANOS_PER_DAY, m), me)
    ensures NewItem(me, d * NANOS_PER_DAY, m).path == DayPath(me, d)
  {
    DayOfMidnight(d);
  }

  lemma CreatedKeeps(s: Store, entries: seq<ManifestItem>, me: string, timePartition: Option<string>,
                     d: int, changes: seq<File>, m: Metrics)
    requires Inv(View(s, entries), me, timePartition) && DayManifest(changes, d, timePartition)
    requires !Listed(View(s, entries), DayPath(me, d))
    ensures var (after, entry) := Created(s, me, d * NANOS_PER_DAY, changes, m);
            var v := View(after, entries + [entry.value]);
            && Inv(v, me, timePartition)
            && v.manifests == s.manifests[DayPath(me, d) := changes]
            && forall p :: Listed(v, p) <==> Listed(View(s, entries), p) || p == DayPath(me, d)
  {
    NewItemIsWholeDay(me, d, m);
    var before := View(s, entries);
    var (after, entry) := Created(s, me, d * NANOS_PER_DAY, changes, m);
    var v := View(after, entries + [entry.value]);
    assert v.items == before.items + [entry.value];
    assert v.items[|before.items|].path == DayPath(me, d);
    forall i | 0 <= i < |before.items| ensures v.items[i] == before.items[i] && v.items[i].path != DayPath(me, d) { }
    forall p ensures Listed(v, p) <==> Listed(before, p) || p == DayPath(me, d) {
      if Listed(before, p) {
        var i :| 0 <= i < |before.items| && before.items[i].path == p;
        assert v.items[i].path == p;
      }
    }
  }

  lemma UpsertedKeeps(s: Store, entries: seq<ManifestItem>, me: string, timePartition: Option<string>,
                      d: int, pos: nat, files: seq<File>, m: Metrics)
    requires Inv(View(s, entries), me, timePartition) && DayManifest(files, d, timePartition)
    requires pos < |s.items| && s.items[pos].path == DayPath(me, d)
    ensures var updated := s.items[pos].(events := m.events, ingestion := m.ingestion, storage := m.storage);
            var v := View(Store(s.items[pos := updated], s.manifests[DayPath(me, d) := files]), entries);
            && Inv(v, me, timePartition)
            && (forall p :: Listed(v, p) <==> Listed(View(s, entries), p))
  {
    var before := View(s, entries);
    var updated := s.items[pos].(events := m.events, ingestion := m.ingestion, storage := m.storage);
    var v := View(Store(s.items[pos := updated], s.manifests[DayPath(me, d) := files]), entries);
    assert before.items[pos] == s.items[pos];
    forall i | 0 <= i < |v.items| ensures v.items[i].path == before.items[i].path && WholeDay(v.items[i], me) { }
    forall p ensures Listed(v, p) <==> Listed(before, p) {
      if i :| 0 <= i < |v.items| && v.items[i].path == p { assert before.items[i].path == p; }
      if i :| 0 <= i < |before.items| && before.items[i].path == p { assert v.items[i].path == p; }
    }
  }

  lemma UpsertAllDay(files: seq<File>, changes: seq<File>, d: int, timePartition: Option<string>)
    requires DayManifest(files, d, timePartition) && OnDay(changes, d, timePartition)
    ensures DayManifest(UpsertAll(files, changes), d, timePartition)
  {
    UpsertAllContents(files, changes, File("", 0, 0, 0, []));
    forall f | f in UpsertAll(files, changes) ensures f in changes || f in files {
      UpsertAllContents(files, changes, f);
    }
  }

  /** `after` is `before` with day `d`'s files upserted and every other day's left alone. */
  ghost predicate DayUpserted(before: Store, after: Store, me: string, d: int, changes: seq<File>) {
    forall e :: DayFiles(after, me, e) ==
      if e == d then UpsertAll(DayFiles(before, me, d), changes) else DayFiles(before, me, e)
  }

  ghost predicate StillListed(before: Store, after: Store) {
    forall p | Listed(before, p) :: Listed(after, p)
  }

  lemma ProcessedNew(s: Store, entries: seq<ManifestItem>, me: string, timePartition: Option<string>,
                     d: int, changes: seq<File>, m: Metrics)
    requires Inv(View(s, entries), me, timePartition) && DayManifest(changes, d, timePartition)
    requires !Listed(View(s, entries), DayPath(me, d)) && Position(s.items, d * NANOS_PER_DAY).None?
    ensures var v := ProcessedView(s, entries, me, d, changes, m);
            && Inv(v, me, timePartition) && DayUpserted(View(s, entries), v, me, d, changes)
            && StillListed(View(s, entries), v)
  {
    hide Inv;
    CreatedKeeps(s, entries, me, timePartition, d, changes, m);
    UpsertIntoEmpty(changes);
  }

  lemma ProcessedOld(s: Store, entries: seq<ManifestItem>, me: string, timePartition: Option<string>,
                     d: int, changes: seq<File>, m: Metrics, pos: nat)
    requires Inv(View(s, entries), me, timePartition) && OnDay(changes, d, timePartition)
    requires Position(s.items, d * NANOS_PER_DAY) == Some(pos) && s.items[pos].path == DayPath(me, d)
    ensures var v := ProcessedView(s, entries, me, d, changes, m);
            && Inv(v, me, timePartition) && DayUpserted(View(s, entries), v, me, d, changes)
            && StillListed(View(s, entries), v)
  {
    var item := s.items[pos];
    assert View(s, entries).items[pos] == item;
    DayOfMidnight(d);
    assert OwnPath(me, item.lower, item.upper) == DayPath(me, d);
    var files := UpsertAll(s.manifests[item.path], changes);
    UpsertAllDay(s.manifests[item.path], changes, d, timePartition);
    UpsertedKeeps(s, entries, me, timePartition, d, pos, files, m);
    assert Contains(me, me) && entries + [] == entries;
    assert Listed(View(s, entries), DayPath(me, d));
  }

  /** Processing one day's group upserts exactly that day and keeps the invariant. */
  lemma ProcessedKeeps(s: Store, entries: seq<ManifestItem>, me: string, timePartition: Option<string>,
                       d: int, changes: seq<File>, m: Metrics)
    requires Inv(View(s, entries), me, timePartition) && OnDay(changes, d, timePartition)
    requires Listed(View(s, entries), DayPath(me, d)) || DistinctPaths(changes)
    requires forall i | 0 <= i < |entries| :: entries[i].path != DayPath(me, d)
    ensures var v := ProcessedView(s, entries, me, d, changes, m);
            && Inv(v, me, timePartition) && DayUpserted(View(s, entries), v, me, d, changes)
            && StillListed(View(s, entries), v)
  {
    ViewParts(s, entries, me, timePartition);
    PositionIsListed(s, me, timePartition, d);
    hide Inv; hide DayUpserted; hide ProcessedView; hide StillListed; hide Listed;
    match Position(s.items, d * NANOS_PER_DAY)
    case Some(pos) => ProcessedOld(s, entries, me, timePartition, d, changes, m, pos);
    case None => ProcessedNew(s, entries, me, timePartition, d, changes, m);
  }

  // ------------------------------------------------------------------------ one batch

  ghost predicate OrderFits(s: Store, me: string, groups: Groups, order: seq<Range>, timePartition: Option<string>) {
    && (forall i, j | 0 <= i < j < |order| :: order[i] != order[j])
    && (forall k | k in order ::
          && k == DayRange(Day(k.0)) && OnDay(Get(groups, k), Day(k.0), timePartition)
          && (Listed(s, DayPath(me, Day(k.0))) || DistinctPaths(Get(groups, k))))
  }

  /** `after` is `before` with the day of each group in `order` upserted. */
  ghost predicate DaysUpserted(before: Store, after: Store, me: string, groups: Groups, order: seq<Range>) {
    forall d :: DayFiles(after, me, d) ==
      if DayRange(d) in order then UpsertAll(DayFiles(before, me, d), Get(groups, DayRange(d)))
      else DayFiles(before, me, d)
  }

  lemma OneDayMore(s: Store, v: Store, w: Store, me: string, groups: Groups, order: seq<Range>, d: int)
    requires DaysUpserted(s, v, me, groups, order) && DayRange(d) !in order
    requires DayUpserted(v, w, me, d, Get(groups, DayRange(d)))
    ensures DaysUpserted(s, w, me, groups, order + [DayRange(d)])
  {
    hide DayFiles; hide UpsertAll; hide Get;
    forall e ensures DayRange(e) in order + [DayRange(d)] <==> DayRange(e) in order || e == d {
      assert DayRange(e) == DayRange(d) <==> e == d;
    }
  }

  predicate OfOrder(item: ManifestItem, me: string, order: seq<Range>) {
    exists k | k in order :: item.path == DayPath(me, Day(k.0))
  }

  /** New items belong to days of the order. */
  lemma {:induction false} EntriesOfOrder(s: Store, me: string, groups: Groups, order: seq<Range>, metrics: map<int, Metrics>)
    requires forall k | k in order :: k == DayRange(Day(k.0))
    ensures var (after, entries) := ProcessedAll(s, me, groups, order, metrics);
            forall item | item in entries :: OfOrder(item, me, order)
  {
    if order != [] {
      var rest, k := order[..|order| - 1], order[|order| - 1];
      assert order == rest + [k];
      EntriesOfOrder(s, me, groups, rest, metrics);
      OnePartitionMore(s, me, groups, order, metrics);
      var pending := ProcessedAll(s, me, groups, rest, metrics).1;
      hide Processed; hide ProcessedView; hide Day; hide DayRange; hide ProcessedAll;
      var entries := ProcessedAll(s, me, groups, order, metrics).1;
      forall item | item in entries ensures OfOrder(item, me, order) {
        var i :| 0 <= i < |entries| && entries[i] == item;
        if i < |pending| && entries[i] == pending[i] {
          assert OfOrder(pending[i], me, rest);
          var j :| j in rest && pending[i].path == DayPath(me, Day(j.0));
          assert j in order;
        } else {
          assert k in order;
        }
      }
    }
  }

  lemma NoEntryYet(s: Store, me: string, groups: Groups, rest: seq<Range>, k: Range, metrics: map<int, Metrics>)
    requires forall j | j in rest + [k] :: j == DayRange(Day(j.0))
    requires k !in rest
    ensures var (before, pending) := ProcessedAll(s, me, groups, rest, metrics);
            forall i | 0 <= i < |pending| :: pending[i].path != DayPath(me, Day(k.0))
  {
    forall k | k in rest ensures k == DayRange(Day(k.0)) {
      assert k in rest + [k];
    }
    EntriesOfOrder(s, me, groups, rest, metrics);
    var (before, pending) := ProcessedAll(s, me, groups, rest, metrics);
    forall i | 0 <= i < |pending| ensures pending[i].path != DayPath(me, Day(k.0)) {
      assert pending[i] in pending;
      assert OfOrder(pending[i], me, rest);
      var j :| j in rest && pending[i].path == DayPath(me, Day(j.0));
      assert j in rest + [k] && k in rest + [k];
    }
  }

  /** Processing groups in any order upserts each group's day once. */
  lemma {:induction false} ProcessedAllKeeps(s: Store, me: string, timePartition: Option<string>, groups: Groups,
                                             order: seq<Range>, metrics: map<int, Metrics>)
    requires Inv(s, me, timePartition) && OrderFits(s, me, groups, order, timePartition)
    ensures var (after, entries) := ProcessedAll(s, me, groups, order, metrics);
            && Inv(View(after, entries), me, timePartition) && DaysUpserted(s, View(after, entries), me, groups, order)
            && StillListed(s, View(after, entries))
  {
    hide Listed; hide OnDay; hide DistinctPaths;
    hide Inv; hide DayManifest; hide Processed; hide ProcessedView; hide DayUpserted; hide Day; hide DayRange;
    hide DayFiles; hide UpsertAll;
    if order == [] {
      assert View(s, []) == s;
    } else {
      var rest, k := order[..|order| - 1], order[|order| - 1];
      assert order == rest + [k];
      ProcessedAllKeeps(s, me, timePartition, groups, rest, metrics);
      hide DaysUpserted;
      var (before, pending) := ProcessedAll(s, me, groups, rest, metrics);
      NoEntryYet(s, me, groups, rest, k, metrics);
      ProcessedKeeps(before, pending, me, timePartition, Day(k.0), Get(groups, k), MetricsOf(metrics, k.0));
      OnePartitionMore(s, me, groups, order, metrics);
      var (after, entries) := ProcessedAll(s, me, groups, order, metrics);
      OneDayMore(s, View(before, pending), View(after, entries), me, groups, rest, Day(k.0));
    }
  }

  lemma OnePartitionMore(s: Store, me: string, groups: Groups, order: seq<Range>, metrics: map<int, Metrics>)
    requires order != [] && order[|order| - 1] == DayRange(Day(order[|order| - 1].0))
    ensures var (before, pending) := ProcessedAll(s, me, groups, order[..|order| - 1], metrics);
            var (after, entries) := ProcessedAll(s, me, groups, order, metrics);
            var k := order[|order| - 1];
            && View(after, entries) == ProcessedView(before, pending, me, Day(k.0), Get(groups, k), MetricsOf(metrics, k.0))
            && (forall i | 0 <= i < |entries| ::
                  (i < |pending| && entries[i] == pending[i]) || entries[i].path == DayPath(me, Day(k.0)))
  {
    var k := order[|order| - 1];
    NewItemIsWholeDay(me, Day(k.0), MetricsOf(metrics, k.0));
  }

  /** The day of a file, where its statistics tell. */
  function FileDay(f: File, timePartition: Option<string>): int {
    if HasTimeBounds(f, TimeColumn(timePartition)) then Day(TimeBound(f, timePartition)) else 0
  }

  /** The batch's changes of one day, in batch order. */
  function ChangesOf(changes: seq<File>, timePartition: Option<string>, d: int): seq<File> {
    Filter(changes, (f: File) => FileDay(f, timePartition) == d)
  }

  /** No path occurs twice among the batch's changes of a day that is not listed yet. */
  ghost predicate DistinctWhereNew(s: Store, me: string, changes: seq<File>, timePartition: Option<string>) {
    forall d :: Listed(s, DayPath(me, d)) || DistinctPaths(ChangesOf(changes, timePartition, d))
  }

  /** The order visits every group once. */
  ghost predicate Enumerates(order: seq<Range>, groups: Groups) {
    && (forall i, j | 0 <= i < j < |order| :: order[i] != order[j])
    && (forall k | k in order :: k in groups)
    && (forall k | k in groups :: k in order)
  }

  lemma KeyIsDayRange(f: File, timePartition: Option<string>)
    requires HasTimeBounds(f, TimeColumn(timePartition))
    ensures KeyOf(f, timePartition) == DayRange(FileDay(f, timePartition))
    ensures forall d :: DayRange(d) == KeyOf(f, timePartition) <==> d == FileDay(f, timePartition)
  {
    PartitionIsWholeDay(TimeBound(f, timePartition), 0);
  }

  /** A group of the fold is what the batch has for its day. */
  lemma GroupIsChangesOf(changes: seq<File>, timePartition: Option<string>, d: int)
    requires Boundable(changes, timePartition)
    ensures Get(FoldChunk(changes, timePartition), DayRange(d)) == ChangesOf(changes, timePartition, d)
  {
    GroupsByDay(changes, timePartition, DayRange(d));
    var byKey := c => HasTimeBounds(c, TimeColumn(timePartition)) && KeyOf(c, timePartition) == DayRange(d);
    var byDay := (f: File) => FileDay(f, timePartition) == d;
    forall c | c in changes ensures byKey(c) <==> byDay(c) {
      KeyIsDayRange(c, timePartition);
    }
    FilterSame(changes, byKey, byDay);
  }

  lemma ChangesOfDay(changes: seq<File>, timePartition: Option<string>, d: int)
    requires Boundable(changes, timePartition)
    ensures OnDay(ChangesOf(changes, timePartition, d), d, timePartition)
  {
    FilterMembers(changes, (f: File) => FileDay(f, timePartition) == d);
  }

  lemma OrderFitsBatch(s: Store, me: string, changes: seq<File>, timePartition: Option<string>, order: seq<Range>)
    requires Boundable(changes, timePartition) && DistinctWhereNew(s, me, changes, timePartition)
    requires Enumerates(order, FoldChunk(changes, timePartition))
    ensures OrderFits(s, me, FoldChunk(changes, timePartition), order, timePartition)
    ensures forall d :: DayRange(d) in order || ChangesOf(changes, timePartition, d) == []
  {
    var groups := FoldChunk(changes, timePartition);
    forall k | k in order
      ensures k == DayRange(Day(k.0)) && OnDay(Get(groups, k), Day(k.0), timePartition)
      ensures Listed(s, DayPath(me, Day(k.0))) || DistinctPaths(Get(groups, k))
    {
      GroupsByDay(changes, timePartition, k);
      var c :| c in changes && KeyOf(c, timePartition) == k;
      KeyIsDayRange(c, timePartition);
      DayOfMidnight(FileDay(c, timePartition));
      GroupIsChangesOf(changes, timePartition, Day(k.0));
      ChangesOfDay(changes, timePartition, Day(k.0));
    }
    forall d ensures DayRange(d) in order || ChangesOf(changes, timePartition, d) == [] {
      GroupIsChangesOf(changes, timePartition, d);
    }
  }

  /** One `update_snapshot`: every day's listed files become the old ones upserted with the
      batch's changes of that day, whatever order the groups come in. */
  lemma UpdatedKeeps(s: Store, me: string, timePartition: Option<string>, changes: seq<File>,
                     order: seq<Range>, metrics: map<int, Metrics>)
    requires Inv(s, me, timePartition) && Boundable(changes, timePartition)
    requires DistinctWhereNew(s, me, changes, timePartition)
    requires Enumerates(order, FoldChunk(changes, timePartition))
    ensures var after := Updated(s, me, timePartition, changes, order, metrics);
            && Inv(after, me, timePartition)
            && forall d :: DayFiles(after, me, d) ==
                 UpsertAll(DayFiles(s, me, d), ChangesOf(changes, timePartition, d))
  {
    if changes != [] {
      var groups := FoldChunk(changes, timePartition);
      OrderFitsBatch(s, me, changes, timePartition, order);
      ProcessedAllKeeps(s, me, timePartition, groups, order, metrics);
      var (stored, entries) := ProcessedAll(s, me, groups, order, metrics);
      assert Updated(s, me, timePartition, changes, order, metrics) == View(stored, entries);
      forall d ensures DayFiles(View(stored, entries), me, d) ==
                       UpsertAll(DayFiles(s, me, d), ChangesOf(changes, timePartition, d))
      {
        GroupIsChangesOf(changes, timePartition, d);
      }
    }
  }

  // ---------------------------------------------------------------------------- runs

  /** A step in a stream's life: a batch of uploaded files reaches the snapshot, or retention
      drops whole days. */
  datatype Event =
    | Ingested(changes: seq<File>, order: seq<Range>, metrics: map<int, Metrics>)
    | Retained(days: set<int>)

  ghost predicate Admissible(e: Event, s: Store, me: string, timePartition: Option<string>) {
    e.Ingested? ==>
      && Boundable(e.changes, timePartition)
      && DistinctWhereNew(s, me, e.changes, timePartition)
      && Enumerates(e.order, FoldChunk(e.changes, timePartition))
  }

  ghost predicate AdmissibleRun(events: seq<Event>, me: string, timePartition: Option<string>)
    decreases |events|, 0
  {
    events == [] ||
    (&& AdmissibleRun(events[..|events| - 1], me, timePartition)
     && Admissible(events[|events| - 1], StoreAfter(events[..|events| - 1], me, timePartition), me, timePartition))
  }

  ghost function StoreAfter(events: seq<Event>, me: string, timePartition: Option<string>): Store
    requires AdmissibleRun(events, me, timePartition)
    decreases |events|, 1
  {
    if events == [] then Store([], map[])
    else
      var before := StoreAfter(events[..|events| - 1], me, timePartition);
      match events[|events| - 1]
      case Ingested(changes, order, metrics) => Updated(before, me, timePartition, changes, order, metrics)
      case Retained(days) => Removed(before, days)
  }

  /** The index the snapshot should amount to: for each day and path, the latest change. */
  type Latest = map<(int, string), File>

  function Put(latest: Latest, changes: seq<File>, timePartition: Option<string>): Latest {
    if changes == [] then latest
    else
      var last := changes[|changes| - 1];
      Put(latest, changes[..|changes| - 1], timePartition)[(FileDay(last, timePartition), last.path) := last]
  }

  function LatestAfter(events: seq<Event>, timePartition: Option<string>): Latest {
    if events == [] then map[]
    else
      var before := LatestAfter(events[..|events| - 1], timePartition);
      match events[|events| - 1]
      case Ingested(changes, _, _) => Put(before, changes, timePartition)
      case Retained(days) => map k | k in before && k.0 !in days :: before[k]
  }

  /** The listed files of each day are exactly the latest changes of that day. */
  ghost predicate Agrees(s: Store, me: string, latest: Latest) {
    forall d, f :: f in DayFiles(s, me, d) <==> (d, f.path) in latest && latest[(d, f.path)] == f
  }

  /** Upserting a day's changes one by one is recording each as its path's latest. */
  lemma {:induction false} PutUpserts(latest: Latest, files: seq<File>, changes: seq<File>, timePartition: Option<string>, d: int)
    requires DistinctPaths(files)
    requires forall f: File :: f in files <==> (d, f.path) in latest && latest[(d, f.path)] == f
    ensures var put, after := Put(latest, changes, timePartition), UpsertAll(files, ChangesOf(changes, timePartition, d));
            && DistinctPaths(after)
            && forall f: File :: f in after <==> (d, f.path) in put && put[(d, f.path)] == f
  {
    hide FileDay; hide DistinctPaths;
    if changes != [] {
      var rest, last := changes[..|changes| - 1], changes[|changes| - 1];
      PutUpserts(latest, files, rest, timePartition, d);
      var before, of := UpsertAll(files, ChangesOf(rest, timePartition, d)), ChangesOf(rest, timePartition, d);
      if FileDay(last, timePartition) == d {
        assert ChangesOf(changes, timePartition, d) == of + [last];
        assert (of + [last])[..|of|] == of;
        assert UpsertAll(files, of + [last]) == Upsert(before, last);
        UpsertContents(before, last, last);
        forall f ensures f in Upsert(before, last) <==> f == last || (f in before && f.path != last.path) {
          UpsertContents(before, last, f);
        }
      } else {
        assert ChangesOf(changes, timePartition, d) == of + [] == of;
      }
      hide ChangesOf; hide UpsertAll; hide Upsert;
    }
  }

  lemma ListedDistinct(s: Store, me: string, timePartition: Option<string>, d: int)
    requires Inv(s, me, timePartition)
    ensures DistinctPaths(DayFiles(s, me, d))
  {
    var p := DayPath(me, d);
    if i :| 0 <= i < |s.items| && s.items[i].path == p { assert DayManifest(s.manifests[p], d, timePartition); }
  }

  lemma IngestAgrees(s: Store, me: string, timePartition: Option<string>, latest: Latest,
                     changes: seq<File>, order: seq<Range>, metrics: map<int, Metrics>)
    requires Inv(s, me, timePartition) && Agrees(s, me, latest)
    requires Admissible(Ingested(changes, order, metrics), s, me, timePartition)
    ensures var after := Updated(s, me, timePartition, changes, order, metrics);
            Inv(after, me, timePartition) && Agrees(after, me, Put(latest, changes, timePartition))
  {
    UpdatedKeeps(s, me, timePartition, changes, order, metrics);
    var after, put := Updated(s, me, timePartition, changes, order, metrics), Put(latest, changes, timePartition);
    hide Updated; hide Put;
    forall d, f ensures f in DayFiles(after, me, d) <==> (d, f.path) in put && put[(d, f.path)] == f {
      ListedDistinct(s, me, timePartition, d);
      PutUpserts(latest, DayFiles(s, me, d), changes, timePartition, d);
    }
  }

  /** The items retention keeps: those of no dropped day, still with distinct paths. */
  lemma KeptItems(s: Store, me: string, timePartition: Option<string>, days: set<int>)
    requires Inv(s, me, timePartition)
    ensures var kept := Removed(s, days).items;
            && (forall i | 0 <= i < |kept| :: kept[i] in s.items && kept[i].path.firstDay !in days)
            && (forall i, j | 0 <= i < j < |kept| :: kept[i].path != kept[j].path)
            && (forall i | 0 <= i < |s.items| && s.items[i].path.firstDay !in days :: s.items[i] in kept)
  {
    var kept := Removed(s, days).items;
    var keep := (item: ManifestItem) => !NamesADay(item.path, days);
    var path := (item: ManifestItem) => item.path;
    FilterMembers(s.items, keep);
    assert Distinct(s.items, path);
    FilterDistinct(s.items, keep, path);
    forall i | 0 <= i < |kept| ensures kept[i] in s.items && kept[i].path.firstDay !in days {
      assert kept[i] in kept;
    }
    forall i, j | 0 <= i < j < |kept| ensures kept[i].path != kept[j].path {
      assert path(kept[i]) != path(kept[j]);
    }
  }

  lemma RetainKeepsInv(s: Store, me: string, timePartition: Option<string>, days: set<int>)
    requires Inv(s, me, timePartition)
    ensures Inv(Removed(s, days), me, timePartition)
  {
    KeptItems(s, me, timePartition, days);
    var after := Removed(s, days);
    hide DayManifest;
    forall i | 0 <= i < |after.items|
      ensures WholeDay(after.items[i], me) && after.items[i].path in after.manifests
              && DayManifest(after.manifests[after.items[i].path], after.items[i].path.firstDay, timePartition)
    {
      var j :| 0 <= j < |s.items| && s.items[j] == after.items[i];
    }
  }

  lemma RetainedDay(s: Store, me: string, timePartition: Option<string>, days: set<int>, d: int)
    requires Inv(s, me, timePartition)
    ensures DayFiles(Removed(s, days), me, d) == if d in days then [] else DayFiles(s, me, d)
  {
    KeptItems(s, me, timePartition, days);
    var after, p := Removed(s, days), DayPath(me, d);
    hide DayManifest; hide ItemsKept;
    if i :| 0 <= i < |after.items| && after.items[i].path == p {
      var j :| 0 <= j < |s.items| && s.items[j] == after.items[i];
    }
    if i :| 0 <= i < |s.items| && s.items[i].path == p && d !in days {
      var j :| 0 <= j < |after.items| && after.items[j] == s.items[i];
    }
  }

  lemma RetainAgrees(s: Store, me: string, timePartition: Option<string>, latest: Latest, days: set<int>)
    requires Inv(s, me, timePartition) && Agrees(s, me, latest)
    ensures var after := Removed(s, days);
            Inv(after, me, timePartition) && Agrees(after, me, map k | k in latest && k.0 !in days :: latest[k])
  {
    RetainKeepsInv(s, me, timePartition, days);
    hide Removed; hide Inv; hide DayFiles;
    forall d ensures DayFiles(Removed(s, days), me, d) == if d in days then [] else DayFiles(s, me, d) {
      RetainedDay(s, me, timePartition, days, d);
    }
  }

  /** In every run on one node, the listed ranges are whole days, pairwise disjoint, and the
      snapshot agrees with the plain index of latest changes. */
  lemma {:induction false} SnapshotInvariant(events: seq<Event>, me: string, timePartition: Option<string>)
    requires AdmissibleRun(events, me, timePartition)
    ensures Inv(StoreAfter(events, me, timePartition), me, timePartition)
    ensures Agrees(StoreAfter(events, me, timePartition), me, LatestAfter(events, timePartition))
  {
    if events != [] {
      var rest, last := events[..|events| - 1], events[|events| - 1];
      SnapshotInvariant(rest, me, timePartition);
      var before := StoreAfter(rest, me, timePartition);
      match last
      case Ingested(changes, order, metrics) =>
        IngestAgrees(before, me, timePartition, LatestAfter(rest, timePartition), changes, order, metrics);
      case Retained(days) =>
        RetainAgrees(before, me, timePartition, LatestAfter(rest, timePartition), days);
    }
  }

  /** A new manifest lists its batch as it comes, while a listed one is upserted: after a day's
      group has been processed its paths are distinct exactly when the day was listed, or the
      group repeats none. */
  lemma RepeatedPathExact(s: Store, me: string, timePartition: Option<string>, d: int, changes: seq<File>, m: Metrics)
    requires Inv(s, me, timePartition) && OnDay(changes, d, timePartition)
    ensures var after := ProcessedView(s, [], me, d, changes, m);
            DistinctPaths(DayFiles(after, me, d)) <==> Listed(s, DayPath(me, d)) || DistinctPaths(changes)
  {
    assert View(s, []) == s;
    PositionIsListed(s, me, timePartition, d);
    if Listed(s, DayPath(me, d)) {
      ProcessedKeeps(s, [], me, timePartition, d, changes, m);
      ListedDistinct(ProcessedView(s, [], me, d, changes, m), me, timePartition, d);
    } else {
      NewItemIsWholeDay(me, d, m);
      var after := ProcessedView(s, [], me, d, changes, m);
      assert after.items[|s.items|].path == DayPath(me, d);
      assert DayFiles(after, me, d) == changes;
    }
  }
}

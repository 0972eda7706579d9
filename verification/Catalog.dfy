/** The snapshot of a stream and the pipeline that keeps it up to date: changes are grouped by
    day, each day's manifest is created or upserted, and new manifests join the snapshot. */
module Catalog {
  import opened Values
  import opened Seqs
  import opened Pruning
  import opened TimeFilters
  import opened Grouping
  import opened ManifestFile

  /** The live counters of one day, as they stand when its manifest is written. */
  datatype Metrics = Metrics(events: nat, ingestion: nat, storage: nat)

  /** What is persisted for a stream: its snapshot and the manifest objects. */
  datatype Store = Store(items: seq<ManifestItem>, manifests: map<ManifestPath, seq<File>>)

  /** `str::contains`. */
  predicate Contains(text: string, part: string) {
    part <= text || (text != [] && Contains(text[1..], part))
  }

  /** The path this node writes a manifest under. */
  function OwnPath(me: string, lower: int, upper: int): ManifestPath {
    ManifestPath(me, Day(lower), Day(upper))
  }

  /** The first listed manifest whose range holds the start of the partition. */
  function Position(items: seq<ManifestItem>, lower: int): (r: Option<nat>)
    ensures r.Some? ==> r.value < |items| && items[r.value].lower <= lower < items[r.value].upper
    ensures r.None? ==> forall i | 0 <= i < |items| :: !(items[i].lower <= lower < items[i].upper)
  {
    if items == [] then None
    else if items[0].lower <= lower < items[0].upper then Some(0)
    else match Position(items[1..], lower) { case Some(i) => Some(i + 1) case None => None }
  }

  // -------------------------------------------------- the pipeline, as a function on stores

  function NewItem(me: string, lower: int, m: Metrics): ManifestItem {
    var range := PartitionBounds(lower);
    ManifestItem(OwnPath(me, range.0, range.1), range.0, range.1, m.events, m.ingestion, m.storage)
  }

  /** `create_manifest`: the object is written whole, whatever was there before. */
  function Created(s: Store, me: string, lower: int, changes: seq<File>, m: Metrics): (Store, Option<ManifestItem>) {
    var item := NewItem(me, lower, m);
    (s.(manifests := s.manifests[item.path := changes]), Some(item))
  }

  function Processed(s: Store, me: string, lower: int, changes: seq<File>, m: Metrics): (Store, Option<ManifestItem>) {
    match Position(s.items, lower)
    case None => Created(s, me, lower, changes, m)
    case Some(pos) =>
      var item := s.items[pos];
      if Contains(item.path.fileName, me) && item.path in s.manifests then
        var files := UpsertAll(s.manifests[item.path], changes);
        var updated := item.(events := m.events, ingestion := m.ingestion, storage := m.storage);
        (Store(s.items[pos := updated], s.manifests[OwnPath(me, item.lower, item.upper) := files]), None)
      else
        Created(s, me, lower, changes, m)
  }

  predicate Around(text: string, before: string, part: string, after: string) {
    text == before + part + after
  }

  lemma {:induction false} ContainsExact(text: string, part: string)
    ensures Contains(text, part) <==> exists before, after :: Around(text, before, part, after)
  {
    if part <= text {
      assert Around(text, "", part, text[|part|..]);
    } else if text != [] {
      var rest := text[1..];
      ContainsExact(rest, part);
      if before, after :| Around(rest, before, part, after) {
        assert Around(text, [text[0]] + before, part, after);
      }
      if before, after :| Around(text, before, part, after) {
        assert text == before + (part + after);
        assert before == "" ==> part <= text;
        assert Around(rest, before[1..], part, after);
      }
    }
  }

  /** A group is upserted into the first listed manifest that holds its start exactly when that
      manifest's file name contains this node's, and the object is there.  Otherwise every listed
      item stays as it is, other objects too, and the group gets a manifest and an item of its own. */
  lemma OwnershipExact(s: Store, me: string, lower: int, changes: seq<File>, m: Metrics)
    ensures var pos, (after, entry) := Position(s.items, lower), Processed(s, me, lower, changes, m);
            && (entry.None? <==>
                && pos.Some? && s.items[pos.value].path in s.manifests
                && exists before, after :: Around(s.items[pos.value].path.fileName, before, me, after))
            && (entry.Some? ==>
                  && after.items == s.items
                  && entry.value.path in after.manifests && after.manifests[entry.value.path] == changes
                  && (forall p | p != entry.value.path :: p in after.manifests <==> p in s.manifests)
                  && forall p | p != entry.value.path && p in s.manifests :: after.manifests[p] == s.manifests[p])
  {
    var pos := Position(s.items, lower);
    if pos.Some? { ContainsExact(s.items[pos.value].path.fileName, me); }
    hide Contains; hide UpsertAll;
  }

  function MetricsOf(metrics: map<int, Metrics>, lower: int): Metrics {
    if Day(lower) in metrics then metrics[Day(lower)] else Metrics(0, 0, 0)
  }

  /** The groups processed in the order the hash map yields them; new items pile up aside. */
  function ProcessedAll(s: Store, me: string, groups: Groups, order: seq<Range>, metrics: map<int, Metrics>)
    : (Store, seq<ManifestItem>)
  {
    if order == [] then (s, [])
    else
      var (before, entries) := ProcessedAll(s, me, groups, order[..|order| - 1], metrics);
      var range := order[|order| - 1];
      var (after, entry) := Processed(before, me, range.0, Get(groups, range), MetricsOf(metrics, range.0));
      (after, entries + match entry { case Some(item) => [item] case None => [] })
  }

  function Updated(s: Store, me: string, timePartition: Option<string>, changes: seq<File>,
                   order: seq<Range>, metrics: map<int, Metrics>): Store
    requires Boundable(changes, timePartition)
  {
    if changes == [] then s
    else
      var (after, entries) := ProcessedAll(s, me, FoldChunk(changes, timePartition), order, metrics);
      after.(items := after.items + entries)
  }

  /** `remove_manifest_from_snapshot`, with the day directories the retention task then deletes. */
  function Removed(s: Store, days: set<int>): Store {
    Store(ItemsKept(s.items, days),
          map p | p in s.manifests && !(p.firstDay == p.lastDay && p.firstDay in days) :: s.manifests[p])
  }

  function ItemsKept(items: seq<ManifestItem>, days: set<int>): seq<ManifestItem> {
    Filter(items, (item: ManifestItem) => !NamesADay(item.path, days))
  }

  /** The path contains the name of the date's directory, `date=` and its first day. */
  predicate NamesADay(p: ManifestPath, days: set<int>) {
    p.firstDay in days
  }

  // ----------------------------------------------------------- the pipeline, as it runs

  class StreamCatalog {
    const me: string
    const timePartition: Option<string>
    var items: seq<ManifestItem>
    var manifests: map<ManifestPath, seq<File>>

    constructor (me: string, timePartition: Option<string>)
      ensures this.me == me && this.timePartition == timePartition && Contents() == Store([], map[])
    {
      this.me, this.timePartition, items, manifests := me, timePartition, [], map[];
    }

    ghost function Contents(): Store
      reads this
    {
      Store(items, manifests)
    }

    /** `update_snapshot`.  The hash map's iteration order is an input. */
    method UpdateSnapshot(changes: seq<File>, schedule: Schedule, order: seq<Range>, metrics: map<int, Metrics>)
      requires Boundable(changes, timePartition) && Work(schedule) == changes
      modifies this
      ensures Contents() == Updated(old(Contents()), me, timePartition, changes, order, metrics)
    {
      if changes == [] {
        return;
      }
      var meta := items;
      ParallelIsSequential(schedule, timePartition);
      var groups := Run(schedule, timePartition);
      var entries;
      meta, entries := ProcessPartitionGroups(groups, order, meta, metrics);
      // finalize_snapshot_update
      items := meta + entries;
    }

    method ProcessPartitionGroups(groups: Groups, order: seq<Range>, meta: seq<ManifestItem>, metrics: map<int, Metrics>)
      returns (newMeta: seq<ManifestItem>, entries: seq<ManifestItem>)
      modifies this`manifests
      ensures (Store(newMeta, manifests), entries) ==
              ProcessedAll(Store(meta, old(manifests)), me, groups, order, metrics)
    {
      newMeta, entries := meta, [];
      for k := 0 to |order|
        invariant (Store(newMeta, manifests), entries) ==
                  ProcessedAll(Store(meta, old(manifests)), me, groups, order[..k], metrics)
      {
        assert order[..k + 1][..k] == order[..k] && order[..k + 1][k] == order[k];
        assert entries + [] == entries;
        var entry;
        newMeta, entry := ProcessSinglePartition(order[k].0, Get(groups, order[k]), newMeta, MetricsOf(metrics, order[k].0));
        if entry.Some? {
          entries := entries + [entry.value];
        }
      }
      assert order[..|order|] == order;
    }

    method ProcessSinglePartition(lower: int, changes: seq<File>, meta: seq<ManifestItem>, m: Metrics)
      returns (newMeta: seq<ManifestItem>, entry: Option<ManifestItem>)
      modifies this`manifests
      ensures (Store(newMeta, manifests), entry) == Processed(Store(meta, old(manifests)), me, lower, changes, m)
    {
      var pos := Position(meta, lower);
      if pos.Some? {
        newMeta, entry := HandleExistingPartition(pos.value, changes, meta, m, lower);
      } else {
        newMeta := meta;
        entry := CreateManifest(lower, changes, m);
      }
    }

    method HandleExistingPartition(pos: nat, changes: seq<File>, meta: seq<ManifestItem>, m: Metrics, lower: int)
      returns (newMeta: seq<ManifestItem>, entry: Option<ManifestItem>)
      requires Position(meta, lower) == Some(pos)
      modifies this`manifests
      ensures (Store(newMeta, manifests), entry) == Processed(Store(meta, old(manifests)), me, lower, changes, m)
    {
      newMeta := meta;
      var item := meta[pos];
      if Contains(item.path.fileName, me) && item.path in manifests {
        var manifest := new Manifest(manifests[item.path]);
        for k := 0 to |changes|
          invariant manifests == old(manifests)
          invariant manifest.files == UpsertAll(manifests[item.path], changes[..k])
        {
          assert changes[..k + 1][..k] == changes[..k];
          manifest.ApplyChange(changes[k]);
        }
        assert changes[..|changes|] == changes;
        manifests := manifests[OwnPath(me, item.lower, item.upper) := manifest.files];
        newMeta := meta[pos := item.(events := m.events, ingestion := m.ingestion, storage := m.storage)];
        entry := None;
      } else {
        entry := CreateManifest(lower, changes, m);
      }
    }

    method CreateManifest(lower: int, changes: seq<File>, m: Metrics) returns (entry: Option<ManifestItem>)
      modifies this`manifests
      ensures forall meta :: (Store(meta, manifests), entry) == Created(Store(meta, old(manifests)), me, lower, changes, m)
    {
      var range := PartitionBounds(lower);
      var path := OwnPath(me, range.0, range.1);
      manifests := manifests[path := changes];
      entry := Some(ManifestItem(path, range.0, range.1, m.events, m.ingestion, m.storage));
    }

    method RemoveManifests(days: set<int>)
      modifies this
      ensures Contents() == Removed(old(Contents()), days)
    {
      items := ItemsKept(items, days);
      manifests := map p | p in manifests && !(p.firstDay == p.lastDay && p.firstDay in days) :: manifests[p];
    }
  }

  // --------------------------------------------------------------------- the invariant

  function DayPath(me: string, d: int): ManifestPath {
    ManifestPath(me, d, d)
  }

  /** The item covers one whole UTC day and points at this node's manifest for it. */
  predicate WholeDay(item: ManifestItem, me: string) {
    && item.path == DayPath(me, item.path.firstDay)
    && item.lower == item.path.firstDay * NANOS_PER_DAY
    && item.upper == item.lower + NANOS_PER_DAY - 1
  }

  /** All files belong to the day, and no path occurs twice. */
  ghost predicate DayManifest(files: seq<File>, d: int, timePartition: Option<string>) {
    DistinctPaths(files) && OnDay(files, d, timePartition)
  }

  ghost predicate OnDay(files: seq<File>, d: int, timePartition: Option<string>) {
    forall f | f in files :: HasTimeBounds(f, TimeColumn(timePartition)) && Day(TimeBound(f, timePartition)) == d
  }

  ghost predicate Inv(s: Store, me: string, timePartition: Option<string>) {
    && (forall i | 0 <= i < |s.items| ::
          && WholeDay(s.items[i], me)
          && s.items[i].path in s.manifests
          && DayManifest(s.manifests[s.items[i].path], s.items[i].path.firstDay, timePartition))
    && (forall i, j | 0 <= i < j < |s.items| :: s.items[i].path != s.items[j].path)
  }

  predicate Listed(s: Store, p: ManifestPath) {
    exists i | 0 <= i < |s.items| :: s.items[i].path == p
  }

  /** The files the snapshot leads to for a day. */
  function DayFiles(s: Store, me: string, d: int): seq<File> {
    var p := DayPath(me, d);
    if Listed(s, p) && p in s.manifests then s.manifests[p] else []
  }

  /** Listed ranges are pairwise disjoint. */
  lemma RangesDisjoint(s: Store, me: string, timePartition: Option<string>, i: nat, j: nat, t: int)
    requires Inv(s, me, timePartition) && i < j < |s.items|
    ensures !(s.items[i].lower <= t <= s.items[i].upper && s.items[j].lower <= t <= s.items[j].upper)
  {
    PartitionIsWholeDay(s.items[i].lower, t);
    PartitionIsWholeDay(s.items[j].lower, t);
    DayOfMidnight(s.items[i].path.firstDay);
    DayOfMidnight(s.items[j].path.firstDay);
  }

  lemma DayOfMidnight(d: int)
    ensures Day(d * NANOS_PER_DAY) == d && Day(d * NANOS_PER_DAY + NANOS_PER_DAY - 1) == d
  {
  }

  /** The snapshot as it will be once the entries piled up so far have joined it. */
  function View(s: Store, entries: seq<ManifestItem>): Store {
    s.(items := s.items + entries)
  }

  function DayRange(d: int): Range {
    (d * NANOS_PER_DAY, d * NANOS_PER_DAY + NANOS_PER_DAY - 1)
  }

  lemma PositionIsListed(s: Store, me: string, timePartition: Option<string>, d: int)
    requires Inv(s, me, timePartition)
    ensures var pos := Position(s.items, d * NANOS_PER_DAY);
            && (pos.Some? <==> Listed(s, DayPath(me, d)))
            && (pos.Some? ==> s.items[pos.value].path == DayPath(me, d))
  {
    hide DayManifest;
    forall i | 0 <= i < |s.items|
      ensures s.items[i].lower <= d * NANOS_PER_DAY < s.items[i].upper <==> s.items[i].path == DayPath(me, d)
    {
      assert WholeDay(s.items[i], me);
    }
  }
}

/** The file selection of a scan: manifests by time, files by statistics, and a cut at the
    limit; and the theorem that, over any run of the catalog, no row a query asks for is in a
    file the scan leaves out. */
module Scan {
  import opened Values
  import opened Seqs
  import opened Pruning
  import opened TimeFilters
  import opened Grouping
  import opened ManifestFile
  import opened Catalog
  import opened CatalogRuns

  /** The files of the manifests that exist, item by item. */
  function FilesOf(s: Store, items: seq<ManifestItem>): seq<seq<File>> {
    if items == [] then []
    else
      var last := items[|items| - 1];
      FilesOf(s, items[..|items| - 1]) + if last.path in s.manifests then [s.manifests[last.path]] else []
  }

  predicate PrunedByNone(f: File, filters: seq<Expr>) {
    forall k | 0 <= k < |filters| :: !CanBePruned(f.columns, filters[k])
  }

  /** No filter rules the file out. */
  ghost predicate MayMatch(f: File, filters: seq<Expr>) {
    forall e | e in filters :: !CanBePruned(f.columns, e)
  }

  lemma MayMatchExact(f: File, filters: seq<Expr>)
    ensures PrunedByNone(f, filters) <==> MayMatch(f, filters)
  {
    if PrunedByNone(f, filters) {
      forall e | e in filters ensures !CanBePruned(f.columns, e) {
        var k :| 0 <= k < |filters| && filters[k] == e;
      }
    }
    if MayMatch(f, filters) {
      forall k | 0 <= k < |filters| ensures !CanBePruned(f.columns, filters[k]) { assert filters[k] in filters; }
    }
  }

  function Unpruned(files: seq<File>, filters: seq<Expr>): seq<File> {
    Filter(files, f => PrunedByNone(f, filters))
  }

  function Rows(files: seq<File>): nat {
    if files == [] then 0 else Rows(files[..|files| - 1]) + files[|files| - 1].numRows
  }

  lemma {:induction false} RowsAdd(xs: seq<File>, ys: seq<File>)
    ensures Rows(xs + ys) == Rows(xs) + Rows(ys)
    ensures forall f: File :: Rows([f]) == f.numRows
  {
    forall f: File ensures Rows([f]) == f.numRows { assert [f][..0] == []; }
    if ys == [] {
      assert xs + ys == xs;
    } else {
      assert (xs + ys)[..|xs + ys| - 1] == xs + ys[..|ys| - 1];
      RowsAdd(xs, ys[..|ys| - 1]);
    }
  }

  /** The shortest non-empty prefix whose rows reach the limit, or everything. */
  ghost predicate CutAt(files: seq<File>, limit: nat, cut: seq<File>) {
    && cut <= files
    && (files != [] ==> cut != [])
    && (cut == files || Rows(cut) >= limit)
    && forall k | 0 < k < |cut| :: Rows(files[..k]) < limit
  }

  /** All candidates of a scan, before the limit. */
  function Candidates(s: Store, timeFilters: seq<TimeFilter>, filters: seq<Expr>): seq<File> {
    Unpruned(Reverse(Concat(FilesOf(s, Selected(s.items, timeFilters)))), filters)
  }

  method CollectFromSnapshot(s: Store, timeFilters: seq<TimeFilter>, filters: seq<Expr>, limit: Option<nat>)
    returns (files: seq<File>)
    ensures limit.None? ==> files == Candidates(s, timeFilters, filters)
    ensures limit.Some? ==> CutAt(Candidates(s, timeFilters, filters), limit.value, files)
  {
    var items := Manifests(s.items, timeFilters);
    var found: seq<seq<File>> := [];
    for k := 0 to |items|
      invariant found == FilesOf(s, items[..k])
    {
      assert items[..k + 1][..k] == items[..k];
      if items[k].path in s.manifests {
        found := found + [s.manifests[items[k].path]];
      }
    }
    assert items[..|items|] == items;
    files := Prune(Reverse(Concat(found)), filters);
    if limit.Some? {
      files := Truncate(files, limit.value);
    }
  }

  /** The loop over the filters: one `retain` each. */
  method Prune(all: seq<File>, filters: seq<Expr>) returns (files: seq<File>)
    ensures files == Unpruned(all, filters)
  {
    files := all;
    FilterAll(all, (f: File) => PrunedByNone(f, filters[..0]));
    for k := 0 to |filters|
      invariant files == Unpruned(all, filters[..k])
    {
      var e := filters[k];
      assert filters[..k + 1] == filters[..k] + [e];
      FilterTwice(all, (f: File) => PrunedByNone(f, filters[..k]), (f: File) => !CanBePruned(f.columns, e),
                  (f: File) => PrunedByNone(f, filters[..k + 1]));
      files := Filter(files, (f: File) => !CanBePruned(f.columns, e));
    }
    assert filters[..|filters|] == filters;
  }

  /** The limit loop: stops at the first file with which the running total reaches the limit. */
  method Truncate(files: seq<File>, limit: nat) returns (cut: seq<File>)
    ensures CutAt(files, limit, cut)
  {
    var currLimit := 0;
    for index := 0 to |files|
      invariant currLimit == Rows(files[..index])
      invariant forall k | 0 < k <= index :: Rows(files[..k]) < limit
    {
      assert files[..index + 1][..index] == files[..index];
      currLimit := currLimit + files[index].numRows;
      if currLimit >= limit {
        return files[..index + 1];
      }
    }
    assert files[..|files|] == files;
    return files;
  }

  /** The cut is the shortest prefix that reaches the limit exactly when the limit is not 0, or
      there is nothing to cut: a limit of 0, which the empty prefix reaches, still keeps a file. */
  lemma ShortestPrefixExact(files: seq<File>, limit: nat, cut: seq<File>)
    requires CutAt(files, limit, cut)
    ensures (forall k | 0 <= k < |cut| :: Rows(files[..k]) < limit) <==> limit > 0 || files == []
  {
    assert files[..0] == [];
  }

  // ------------------------------------------------------------------ in which order

  /** A manifest's files from the last to the first, without the pruned ones. */
  ghost function LastFirst(files: seq<File>, filters: seq<Expr>): seq<File> {
    if files == [] then []
    else
      var last := files[|files| - 1];
      (if MayMatch(last, filters) then [last] else []) + LastFirst(files[..|files| - 1], filters)
  }

  /** From the newest item to the oldest, the files of those that overlap. */
  ghost function NewestFirst(s: Store, items: seq<ManifestItem>, timeFilters: seq<TimeFilter>, filters: seq<Expr>): seq<File> {
    if items == [] then []
    else
      var last := items[|items| - 1];
      (if OverlapsAll(last, timeFilters) && last.path in s.manifests then LastFirst(s.manifests[last.path], filters) else [])
      + NewestFirst(s, items[..|items| - 1], timeFilters, filters)
  }

  function CandidatesOf(s: Store, items: seq<ManifestItem>, timeFilters: seq<TimeFilter>, filters: seq<Expr>): seq<File> {
    Unpruned(Reverse(Concat(FilesOf(s, Selected(items, timeFilters)))), filters)
  }

  lemma {:induction false} UnprunedReversed(files: seq<File>, filters: seq<Expr>)
    ensures Unpruned(Reverse(files), filters) == LastFirst(files, filters)
  {
    if files != [] {
      var rest, last := files[..|files| - 1], files[|files| - 1];
      UnprunedReversed(rest, filters);
      hide MayMatch; hide PrunedByNone; hide LastFirst;
      FilterAppend([last], Reverse(rest), f => PrunedByNone(f, filters));
      UnprunedOne(last, filters);
      assert Reverse(files) == [last] + Reverse(rest);
      LastFirstMore(files, filters);
    }
  }

  lemma UnprunedOne(f: File, filters: seq<Expr>)
    ensures Unpruned([f], filters) == if MayMatch(f, filters) then [f] else []
  {
    MayMatchExact(f, filters);
    FilterOne(f, (f: File) => PrunedByNone(f, filters));
  }

  lemma LastFirstMore(files: seq<File>, filters: seq<Expr>)
    requires files != []
    ensures var last := files[|files| - 1];
            LastFirst(files, filters) ==
            (if MayMatch(last, filters) then [last] else []) + LastFirst(files[..|files| - 1], filters)
  {
    hide MayMatch;
  }

  lemma CandidatesMore(s: Store, rest: seq<ManifestItem>, last: ManifestItem, timeFilters: seq<TimeFilter>, filters: seq<Expr>)
    ensures CandidatesOf(s, rest + [last], timeFilters, filters) ==
            (if OverlapsAll(last, timeFilters) && last.path in s.manifests then LastFirst(s.manifests[last.path], filters) else [])
            + CandidatesOf(s, rest, timeFilters, filters)
  {
    var items := rest + [last];
    assert items[..|rest|] == rest;
    hide OverlapsAll; hide PrunedByNone; hide LastFirst;
    var selected := Selected(rest, timeFilters);
    var found := FilesOf(s, selected);
    if OverlapsAll(last, timeFilters) {
      assert Selected(items, timeFilters) == selected + [last];
      assert (selected + [last])[..|selected|] == selected;
      if last.path in s.manifests {
        var files := s.manifests[last.path];
        assert FilesOf(s, selected + [last]) == found + [files] && (found + [files])[..|found|] == found;
        ReverseAppend(Concat(found), files);
        FilterAppend(Reverse(files), Reverse(Concat(found)), f => PrunedByNone(f, filters));
        UnprunedReversed(files, filters);
      } else {
        assert FilesOf(s, selected + [last]) == found;
      }
    } else {
      assert Selected(items, timeFilters) == selected;
    }
  }

  /** The candidates come newest item first, and in each manifest the last file first: these are
      the files a limit keeps. */
  lemma {:induction false} CandidatesNewestFirst(s: Store, items: seq<ManifestItem>, timeFilters: seq<TimeFilter>, filters: seq<Expr>)
    ensures CandidatesOf(s, items, timeFilters, filters) == NewestFirst(s, items, timeFilters, filters)
    ensures items == s.items ==> Candidates(s, timeFilters, filters) == NewestFirst(s, items, timeFilters, filters)
  {
    if items != [] {
      var rest := items[..|items| - 1];
      assert items == rest + [items[|items| - 1]];
      CandidatesNewestFirst(s, rest, timeFilters, filters);
      CandidatesMore(s, rest, items[|items| - 1], timeFilters, filters);
      hide OverlapsAll; hide LastFirst; hide Selected;
    }
  }

  // ------------------------------------------------------------------ what a scan finds

  lemma {:induction false} FilesOfMembers(s: Store, items: seq<ManifestItem>)
    ensures forall i | 0 <= i < |items| && items[i].path in s.manifests :: s.manifests[items[i].path] in FilesOf(s, items)
    ensures forall files | files in FilesOf(s, items) ::
              exists i | 0 <= i < |items| :: items[i].path in s.manifests && s.manifests[items[i].path] == files
  {
    if items != [] {
      var rest, last := items[..|items| - 1], items[|items| - 1];
      FilesOfMembers(s, rest);
      assert forall i | 0 <= i < |rest| :: items[i] == rest[i];
      forall files | files in FilesOf(s, items)
        ensures exists i | 0 <= i < |items| :: items[i].path in s.manifests && s.manifests[items[i].path] == files
      {
        if files in FilesOf(s, rest) {
          var i :| 0 <= i < |rest| && rest[i].path in s.manifests && s.manifests[rest[i].path] == files;
          assert items[i] == rest[i];
        } else {
          assert items[|items| - 1].path in s.manifests;
        }
      }
    }
  }

  /** A file is a candidate exactly when some selected item's manifest lists it and no filter
      rules it out: the scan is the look at every file, cut down. */
  lemma CandidateExact(s: Store, timeFilters: seq<TimeFilter>, filters: seq<Expr>, f: File)
    ensures f in Candidates(s, timeFilters, filters) <==>
            && MayMatch(f, filters)
            && exists item | item in s.items ::
                 OverlapsAll(item, timeFilters) && item.path in s.manifests && f in s.manifests[item.path]
  {
    var items := Selected(s.items, timeFilters);
    var found := FilesOf(s, items);
    MayMatchExact(f, filters);
    FilterMembers(s.items, item => OverlapsAll(item, timeFilters));
    FilesOfMembers(s, items);
    ConcatMembers(found);
    ReverseMembers(Concat(found));
    FilterMembers(Reverse(Concat(found)), f => PrunedByNone(f, filters));
    if f in Concat(found) {
      var k :| 0 <= k < |found| && f in found[k];
      assert found[k] in found;
      var i :| 0 <= i < |items| && items[i].path in s.manifests && s.manifests[items[i].path] == found[k];
      assert items[i] in items;
    }
    if item :| item in s.items && OverlapsAll(item, timeFilters) && item.path in s.manifests && f in s.manifests[item.path] {
      assert item in items;
      var i :| 0 <= i < |items| && items[i] == item;
      assert s.manifests[item.path] in found;
      var k :| 0 <= k < |found| && found[k] == s.manifests[item.path];
    }
  }

  /** The item that stands for a day. */
  function DayItem(me: string, d: int): ManifestItem {
    NewItem(me, d * NANOS_PER_DAY, Metrics(0, 0, 0))
  }

  lemma SameRangeSameOverlap(item: ManifestItem, me: string, d: int, timeFilters: seq<TimeFilter>)
    requires WholeDay(item, me) && item.path == DayPath(me, d)
    ensures OverlapsAll(item, timeFilters) <==> OverlapsAll(DayItem(me, d), timeFilters)
  {
    NewItemIsWholeDay(me, d, Metrics(0, 0, 0));
  }

  /** Over every run: a scan's candidates are the latest changes whose day the time filters
      admit and which no filter rules out, and no others. */
  lemma ScanExact(events: seq<Event>, me: string, timePartition: Option<string>,
                  timeFilters: seq<TimeFilter>, filters: seq<Expr>, f: File)
    requires AdmissibleRun(events, me, timePartition)
    ensures var d, latest := FileDay(f, timePartition), LatestAfter(events, timePartition);
            f in Candidates(StoreAfter(events, me, timePartition), timeFilters, filters) <==>
            && (d, f.path) in latest && latest[(d, f.path)] == f
            && OverlapsAll(DayItem(me, d), timeFilters)
            && MayMatch(f, filters)
  {
    var s, d, latest := StoreAfter(events, me, timePartition), FileDay(f, timePartition), LatestAfter(events, timePartition);
    SnapshotInvariant(events, me, timePartition);
    CandidateExact(s, timeFilters, filters, f);
    assert f in DayFiles(s, me, d) <==> (d, f.path) in latest && latest[(d, f.path)] == f;
    hide Candidates; hide StoreAfter; hide LatestAfter; hide MayMatch; hide OverlapsAll; hide Agrees;
    if item :| item in s.items && OverlapsAll(item, timeFilters) && item.path in s.manifests && f in s.manifests[item.path] {
      var i :| 0 <= i < |s.items| && s.items[i] == item;
      assert item.path == DayPath(me, d);
      SameRangeSameOverlap(item, me, d, timeFilters);
      assert f in DayFiles(s, me, d);
    }
    if f in DayFiles(s, me, d) {
      var i :| 0 <= i < |s.items| && s.items[i].path == DayPath(me, d);
      SameRangeSameOverlap(s.items[i], me, d, timeFilters);
      assert s.items[i] in s.items;
    }
  }

  // ------------------------------------------------------------------ nothing is missed

  /** A row's time, where it falls on the file's day, passes the day's overlap test. */
  lemma DayAdmitsRow(me: string, d: int, timeFilters: seq<TimeFilter>, t: int)
    requires AdmitsAll(timeFilters, t) && Day(t) == d
    ensures OverlapsAll(DayItem(me, d), timeFilters)
  {
    NewItemIsWholeDay(me, d, Metrics(0, 0, 0));
    forall f | f in timeFilters ensures Overlaps(DayItem(me, d), f) {
      OverlapsExact(DayItem(me, d), f);
    }
  }

  /** The query's filters, as far as the scan may take them at their word. */
  ghost predicate Honest(filters: seq<Expr>, timePartition: Option<string>, parse: string -> Option<int>) {
    forall e | e in filters ::
      InRange(e) && ComparesTime(e, TimeColumn(timePartition), timePartition, parse)
  }

  /** Over every run of the catalog: a row that passes every filter lies in a file the scan
      returns, whenever its file is the latest change of its path and day, the file's
      statistics are true of the row, and the row's time falls on the file's day. */
  lemma NothingMissed(events: seq<Event>, me: string, timePartition: Option<string>, parse: string -> Option<int>,
                      filters: seq<Expr>, f: File, row: Row)
    requires AdmissibleRun(events, me, timePartition) && Honest(filters, timePartition, parse)
    requires var d, latest := FileDay(f, timePartition), LatestAfter(events, timePartition);
             (d, f.path) in latest && latest[(d, f.path)] == f
    requires Covers(f.columns, row) && RowTime(row, TimeColumn(timePartition)).Some?
    requires Day(RowTime(row, TimeColumn(timePartition)).value) == FileDay(f, timePartition)
    requires forall e | e in filters :: Holds(e, row)
    ensures f in Candidates(StoreAfter(events, me, timePartition),
                            ExtractPrimaryFilter(filters, timePartition, parse), filters)
  {
    var timeFilters := ExtractPrimaryFilter(filters, timePartition, parse);
    ExtractedAdmit(filters, TimeColumn(timePartition), timePartition, parse, row);
    DayAdmitsRow(me, FileDay(f, timePartition), timeFilters, RowTime(row, TimeColumn(timePartition)).value);
    forall e | e in filters ensures !CanBePruned(f.columns, e) {
      if CanBePruned(f.columns, e) { PruningSound(f.columns, e, row); }
    }
    ScanExact(events, me, timePartition, timeFilters, filters, f);
  }

  /** A file as `create_from_parquet_file` describes it: its columns are the collected ones. */
  ghost predicate DescribedBy(f: File, groups: seq<RowGroup>, columns: map<string, FileColumn>) {
    && OneKindEach(Chunks(groups)) && Summarises(columns, Chunks(groups))
    && forall c | c in f.columns :: c.name in columns && columns[c.name] == c
  }

  /** The same from the parquet file up: the row sits in a row group whose statistics the
      format vouches for, and every row group carries statistics. */
  lemma NoRowMissed(events: seq<Event>, me: string, timePartition: Option<string>, parse: string -> Option<int>,
                    filters: seq<Expr>, f: File, groups: seq<RowGroup>, columns: map<string, FileColumn>,
                    group: RowGroup, row: Row)
    requires AdmissibleRun(events, me, timePartition) && Honest(filters, timePartition, parse)
    requires var d, latest := FileDay(f, timePartition), LatestAfter(events, timePartition);
             (d, f.path) in latest && latest[(d, f.path)] == f
    requires DescribedBy(f, groups, columns) && StatisticsThroughout(groups)
    requires group in groups && GroupSound(group) && row in group.rows
    requires RowTime(row, TimeColumn(timePartition)).Some?
    requires Day(RowTime(row, TimeColumn(timePartition)).value) == FileDay(f, timePartition)
    requires forall e | e in filters :: Holds(e, row)
    ensures f in Candidates(StoreAfter(events, me, timePartition),
                            ExtractPrimaryFilter(filters, timePartition, parse), filters)
  {
    FileCoversRows(groups, columns, row, group);
    NothingMissed(events, me, timePartition, parse, filters, f, row);
  }

  /** A row is found by every query it answers exactly when it falls on the day of its file's
      lower bound, because only that bound decides which manifest lists the file. */
  lemma OneDayExact(events: seq<Event>, me: string, timePartition: Option<string>, parse: string -> Option<int>,
                    f: File, row: Row)
    requires AdmissibleRun(events, me, timePartition)
    requires var d, latest := FileDay(f, timePartition), LatestAfter(events, timePartition);
             (d, f.path) in latest && latest[(d, f.path)] == f
    requires Covers(f.columns, row) && RowTime(row, TimeColumn(timePartition)).Some?
    ensures (forall filters | Honest(filters, timePartition, parse) && (forall e | e in filters :: Holds(e, row)) ::
               f in Candidates(StoreAfter(events, me, timePartition),
                               ExtractPrimaryFilter(filters, timePartition, parse), filters))
            <==> Day(RowTime(row, TimeColumn(timePartition)).value) == FileDay(f, timePartition)
  {
    var tc, d := TimeColumn(timePartition), FileDay(f, timePartition);
    if Day(RowTime(row, tc).value) == d {
      forall filters | Honest(filters, timePartition, parse) && (forall e | e in filters :: Holds(e, row))
        ensures f in Candidates(StoreAfter(events, me, timePartition),
                                ExtractPrimaryFilter(filters, timePartition, parse), filters)
      {
        NothingMissed(events, me, timePartition, parse, filters, f, row);
      }
    } else {
      AskForItsInstant(events, me, timePartition, parse, f, row);
    }
  }

  /** A query for the very instant of a row that falls on another day passes the file by. */
  lemma AskForItsInstant(events: seq<Event>, me: string, timePartition: Option<string>, parse: string -> Option<int>,
                         f: File, row: Row)
    requires AdmissibleRun(events, me, timePartition) && RowTime(row, TimeColumn(timePartition)).Some?
    requires Day(RowTime(row, TimeColumn(timePartition)).value) != FileDay(f, timePartition)
    ensures exists filters ::
              && Honest(filters, timePartition, parse) && (forall e | e in filters :: Holds(e, row))
              && f !in Candidates(StoreAfter(events, me, timePartition),
                                  ExtractPrimaryFilter(filters, timePartition, parse), filters)
  {
    var t := RowTime(row, TimeColumn(timePartition)).value;
    var filters := InstantFilter(row, timePartition);
    InstantFilterHolds(row, timePartition, parse);
    assert [At(t)][0] in [At(t)];
    hide Honest; hide InstantFilter;
    OtherDayExcluded(me, FileDay(f, timePartition), t);
    ScanExact(events, me, timePartition, [At(t)], filters, f);
  }

  /** The query for one instant. */
  function InstantFilter(row: Row, timePartition: Option<string>): seq<Expr>
    requires RowTime(row, TimeColumn(timePartition)).Some?
  {
    var tc := TimeColumn(timePartition);
    [Binary(Column(tc), Eq, Literal(Millis(Some(row[tc].i))), _ => false)]
  }

  lemma InstantFilterHolds(row: Row, timePartition: Option<string>, parse: string -> Option<int>)
    requires RowTime(row, TimeColumn(timePartition)).Some?
    ensures var filters := InstantFilter(row, timePartition);
            && Honest(filters, timePartition, parse) && (forall e | e in filters :: Holds(e, row))
            && ExtractPrimaryFilter(filters, timePartition, parse) == [At(RowTime(row, TimeColumn(timePartition)).value)]
  {
    var tc := TimeColumn(timePartition);
    var filters, t := InstantFilter(row, timePartition), RowTime(row, tc).value;
    var e := filters[0];
    assert Denotes(e.right.value) == Some(Int(row[tc].i));
    assert FromExpr(e, timePartition, parse) == Some(At(t));
    assert filters[..0] == [];
    assert ExtractPrimaryFilter([], timePartition, parse) == [];
  }

  lemma OtherDayExcluded(me: string, d: int, t: int)
    requires Day(t) != d
    ensures !OverlapsAll(DayItem(me, d), [At(t)])
  {
    NewItemIsWholeDay(me, d, Metrics(0, 0, 0));
    assert At(t) in [At(t)] && !Overlaps(DayItem(me, d), At(t));
  }

  // ------------------------------------------------------------- nothing is read twice

  lemma {:induction false} FilesOfPositions(s: Store, items: seq<ManifestItem>)
    requires forall i | 0 <= i < |items| :: items[i].path in s.manifests
    ensures |FilesOf(s, items)| == |items|
    ensures forall i | 0 <= i < |items| :: FilesOf(s, items)[i] == s.manifests[items[i].path]
  {
    if items != [] {
      FilesOfPositions(s, items[..|items| - 1]);
    }
  }

  function DayAndPath(timePartition: Option<string>): File -> (int, string) {
    (f: File) => (FileDay(f, timePartition), f.path)
  }

  function ByPath(): File -> string {
    (f: File) => f.path
  }

  /** Over every run, no path of a day is a candidate twice. */
  lemma NothingTwice(events: seq<Event>, me: string, timePartition: Option<string>,
                     timeFilters: seq<TimeFilter>, filters: seq<Expr>)
    requires AdmissibleRun(events, me, timePartition)
    ensures Distinct(Candidates(StoreAfter(events, me, timePartition), timeFilters, filters),
                     DayAndPath(timePartition))
  {
    var s, key := StoreAfter(events, me, timePartition), DayAndPath(timePartition);
    SnapshotInvariant(events, me, timePartition);
    SelectedListed(s, me, timePartition, timeFilters);
    var items := Selected(s.items, timeFilters);
    FilesOfPositions(s, items);
    var found := FilesOf(s, items);
    hide StoreAfter; hide Inv; hide Selected; hide FilesOf;
    forall j, k, x, y | 0 <= j < k < |found| && x in found[j] && y in found[k] ensures key(x) != key(y) { }
    forall k | 0 <= k < |found| ensures Distinct(found[k], key) { }
    ConcatDistinct(found, key);
    ReverseDistinct(Concat(found), key);
    FilterDistinct(Reverse(Concat(found)), f => PrunedByNone(f, filters), key);
  }

  /** The days on which a path's latest changes lie. */
  ghost predicate OnOneDay(latest: Latest, path: string) {
    forall d, e | (d, path) in latest && (e, path) in latest :: d == e
  }

  /** The index keeps each change under its own day and path. */
  ghost predicate KeysFit(latest: Latest, timePartition: Option<string>) {
    forall k | k in latest :: k == (FileDay(latest[k], timePartition), latest[k].path)
  }

  lemma {:induction false} KeysAlwaysFit(events: seq<Event>, timePartition: Option<string>)
    ensures KeysFit(LatestAfter(events, timePartition), timePartition)
  {
    if events != [] {
      var rest, last := events[..|events| - 1], events[|events| - 1];
      KeysAlwaysFit(rest, timePartition);
      if last.Ingested? { PutKeepsKeys(LatestAfter(rest, timePartition), last.changes, timePartition); }
    }
  }

  lemma {:induction false} PutKeepsKeys(latest: Latest, changes: seq<File>, timePartition: Option<string>)
    requires KeysFit(latest, timePartition)
    ensures KeysFit(Put(latest, changes, timePartition), timePartition)
  {
    if changes != [] { PutKeepsKeys(latest, changes[..|changes| - 1], timePartition); }
  }

  lemma OncePerDay(files: seq<File>, latest: Latest, timePartition: Option<string>)
    requires Distinct(files, DayAndPath(timePartition)) && KeysFit(latest, timePartition)
    requires forall f | f in files :: (FileDay(f, timePartition), f.path) in latest
    requires forall k | k in latest :: latest[k] in files
    ensures Distinct(files, ByPath()) <==> forall path :: OnOneDay(latest, path)
  {
    var dayAndPath, byPath := DayAndPath(timePartition), ByPath();
    hide FileDay;
    if forall path :: OnOneDay(latest, path) {
      forall i, j | 0 <= i < j < |files| ensures byPath(files[i]) != byPath(files[j]) {
        assert files[i] in files && files[j] in files && dayAndPath(files[i]) != dayAndPath(files[j]);
        assert OnOneDay(latest, files[i].path);
      }
    } else {
      var path :| !OnOneDay(latest, path);
      var d, e :| (d, path) in latest && (e, path) in latest && d != e;
      var i :| 0 <= i < |files| && files[i] == latest[(d, path)];
      var j :| 0 <= j < |files| && files[j] == latest[(e, path)];
      assert byPath(files[i]) == byPath(files[j]);
    }
  }

  /** A scan without filters reads the file exactly when it is the latest of its path and day. */
  ghost predicate AllReadIs(events: seq<Event>, me: string, timePartition: Option<string>, f: File)
    requires AdmissibleRun(events, me, timePartition)
  {
    var d, latest := FileDay(f, timePartition), LatestAfter(events, timePartition);
    f in Candidates(StoreAfter(events, me, timePartition), [], []) <==>
    (d, f.path) in latest && latest[(d, f.path)] == f
  }

  lemma AllRead(events: seq<Event>, me: string, timePartition: Option<string>, f: File)
    requires AdmissibleRun(events, me, timePartition)
    ensures AllReadIs(events, me, timePartition, f)
  {
    ScanExact(events, me, timePartition, [], [], f);
    hide Candidates; hide StoreAfter; hide LatestAfter; hide FileDay; hide DayItem;
  }

  /** Over every run: a scan of everything reads no path twice exactly when the latest changes
      of each path lie on one day, for an upsert looks no further than its own day's manifest. */
  lemma PathOnceExact(events: seq<Event>, me: string, timePartition: Option<string>)
    requires AdmissibleRun(events, me, timePartition)
    ensures Distinct(Candidates(StoreAfter(events, me, timePartition), [], []), ByPath()) <==>
            forall path :: OnOneDay(LatestAfter(events, timePartition), path)
  {
    KeysAlwaysFit(events, timePartition);
    NothingTwice(events, me, timePartition, [], []);
    forall f: File ensures AllReadIs(events, me, timePartition, f) { AllRead(events, me, timePartition, f); }
    PathOnceOf(events, me, timePartition, Candidates(StoreAfter(events, me, timePartition), [], []));
    hide *;
  }

  lemma PathOnceOf(events: seq<Event>, me: string, timePartition: Option<string>, files: seq<File>)
    requires AdmissibleRun(events, me, timePartition)
    requires files == Candidates(StoreAfter(events, me, timePartition), [], [])
    requires KeysFit(LatestAfter(events, timePartition), timePartition) && Distinct(files, DayAndPath(timePartition))
    requires forall f: File :: AllReadIs(events, me, timePartition, f)
    ensures Distinct(files, ByPath()) <==>
            forall path :: OnOneDay(LatestAfter(events, timePartition), path)
  {
    var latest := LatestAfter(events, timePartition);
    hide LatestAfter; hide Candidates; hide StoreAfter; hide FileDay; hide Distinct; hide OnOneDay; hide AdmissibleRun; hide DayAndPath; hide ByPath;
    forall f | f in files ensures (FileDay(f, timePartition), f.path) in latest { assert AllReadIs(events, me, timePartition, f); }
    forall k | k in latest ensures latest[k] in files { assert AllReadIs(events, me, timePartition, latest[k]); }
    OncePerDay(files, latest, timePartition);
  }

  lemma SelectedListed(s: Store, me: string, timePartition: Option<string>, timeFilters: seq<TimeFilter>)
    requires Inv(s, me, timePartition)
    ensures var items := Selected(s.items, timeFilters);
            && (forall i | 0 <= i < |items| ::
                  && items[i].path in s.manifests
                  && DistinctPaths(s.manifests[items[i].path])
                  && forall f | f in s.manifests[items[i].path] :: FileDay(f, timePartition) == items[i].path.firstDay)
            && (forall i, j | 0 <= i < j < |items| :: items[i].path.firstDay != items[j].path.firstDay)
  {
    var items, path := Selected(s.items, timeFilters), (item: ManifestItem) => item.path;
    FilterMembers(s.items, item => OverlapsAll(item, timeFilters));
    assert Distinct(s.items, path);
    FilterDistinct(s.items, item => OverlapsAll(item, timeFilters), path);
    forall i | 0 <= i < |items|
      ensures items[i].path in s.manifests && WholeDay(items[i], me)
      ensures DayManifest(s.manifests[items[i].path], items[i].path.firstDay, timePartition)
    {
      assert items[i] in items;
      var j :| 0 <= j < |s.items| && s.items[j] == items[i];
    }
    forall i, j | 0 <= i < j < |items| ensures items[i].path.firstDay != items[j].path.firstDay {
      assert path(items[i]) != path(items[j]);
    }
  }
}

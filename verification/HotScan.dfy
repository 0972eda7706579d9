/** Scans over the hot tier: a scan's files are split between the cache and the object store, and
    the cache lists exactly what it has. */
module HotScan {
  import opened Values
  import opened Seqs
  import opened Sorting
  import opened Grouping
  import opened HotTier

  // ----------------------------------------------------------------------- the split

  predicate HasPath(files: seq<File>, path: string) {
    exists k | 0 <= k < |files| :: files[k].path == path
  }

  function PathGe(): (File, File) -> bool {
    (f: File, g: File) => StrLe(g.path, f.path)
  }

  function LocalFiles(hot: seq<File>, wanted: seq<File>): seq<File> {
    Sort(Filter(hot, (f: File) => HasPath(wanted, f.path)), PathGe())
  }

  function RemoteFiles(local: seq<File>, wanted: seq<File>): seq<File> {
    Sort(Filter(wanted, (f: File) => !HasPath(local, f.path)), PathGe())
  }

  function PathIs(path: string): File -> bool {
    (f: File) => f.path == path
  }

  predicate KeptPath(files: seq<File>, keep: File -> bool, path: string) {
    exists f | f in files :: f.path == path && keep(f)
  }

  lemma {:induction false} CountFiltered(files: seq<File>, keep: File -> bool, path: string)
    requires forall f, g | f in files && g in files && f.path == g.path :: keep(f) <==> keep(g)
    ensures Count(Filter(files, keep), PathIs(path)) == if KeptPath(files, keep, path) then Count(files, PathIs(path)) else 0
  {
    if files != [] {
      var rest, last := files[..|files| - 1], files[|files| - 1];
      assert files == rest + [last];
      CountFiltered(rest, keep, path);
      CountPositive(rest, PathIs(path));
      CountLast(rest, last, PathIs(path));
      CountLast(Filter(rest, keep), last, PathIs(path));
      assert keep(last) ==> Filter(files, keep) == Filter(rest, keep) + [last];
      assert !keep(last) ==> Filter(files, keep) == Filter(rest, keep);
      if last.path == path {
        assert last in files;
        assert KeptPath(files, keep, path) <==> keep(last);
        if !KeptPath(rest, keep, path) && keep(last) {
          assert forall f | f in rest :: f.path != path;
        }
      }
    }
  }

  lemma HasPathCount(files: seq<File>, path: string)
    ensures HasPath(files, path) <==> Count(files, PathIs(path)) > 0
  {
    CountPositive(files, PathIs(path));
  }

  /** How often a scan reads a path: as often as the hot tier lists it if it does, and as often
      as the catalog lists it otherwise.  No path is read both ways. */
  lemma SplitCounts(hot: seq<File>, wanted: seq<File>, path: string)
    ensures var local := LocalFiles(hot, wanted);
            var remote := RemoteFiles(local, wanted);
            && Count(local, PathIs(path)) == (if HasPath(wanted, path) then Count(hot, PathIs(path)) else 0)
            && Count(remote, PathIs(path)) == (if HasPath(hot, path) then 0 else Count(wanted, PathIs(path)))
  {
    var inWanted := (f: File) => HasPath(wanted, f.path);
    CountFiltered(hot, inWanted, path);
    SortCounts(Filter(hot, inWanted), PathGe(), PathIs(path));
    var local := LocalFiles(hot, wanted);
    CountPositive(hot, PathIs(path));
    HasPathCount(hot, path);
    HasPathCount(wanted, path);
    HasPathCount(local, path);
    var notLocal := (f: File) => !HasPath(local, f.path);
    CountFiltered(wanted, notLocal, path);
    SortCounts(Filter(wanted, notLocal), PathGe(), PathIs(path));
    CountPositive(wanted, PathIs(path));
    hide Count; hide Filter; hide Sort;
  }

  /** How often a scan reads a path: locally where the file is there, and from the store. */
  function ReadTimes(hot: seq<File>, wanted: seq<File>, disk: map<string, nat>, path: string): nat {
    var local := LocalFiles(hot, wanted);
    (if path in disk then Count(local, PathIs(path)) else 0) + Count(RemoteFiles(local, wanted), PathIs(path))
  }

  /** For distinct wanted paths, every wanted file is read once, and nothing else, exactly when
      each of them that the hot tier lists is listed once and is on disk. */
  lemma ReadOnceExact(hot: seq<File>, wanted: seq<File>, disk: map<string, nat>)
    requires forall path | HasPath(wanted, path) :: Count(wanted, PathIs(path)) == 1
    ensures (forall path :: ReadTimes(hot, wanted, disk, path) == Count(wanted, PathIs(path))) <==>
            forall path | HasPath(wanted, path) && HasPath(hot, path) :: Count(hot, PathIs(path)) == 1 && path in disk
  {
    forall path
      ensures ReadTimes(hot, wanted, disk, path) == Count(wanted, PathIs(path)) <==>
              (HasPath(wanted, path) && HasPath(hot, path) ==> Count(hot, PathIs(path)) == 1 && path in disk)
    {
      SplitCounts(hot, wanted, path);
      HasPathCount(wanted, path);
      HasPathCount(hot, path);
      hide LocalFiles; hide RemoteFiles; hide Count; hide HasPath;
    }
    hide ReadTimes;
  }

  lemma SplitDescends(hot: seq<File>, wanted: seq<File>)
    ensures Descends(LocalFiles(hot, wanted)) && Descends(RemoteFiles(LocalFiles(hot, wanted), wanted))
  {
    forall f: File, g: File ensures PathGe()(f, g) || PathGe()(g, f) { StrTotal(f.path, g.path); }
    forall f: File, g: File, h: File | PathGe()(f, g) && PathGe()(g, h) ensures PathGe()(f, h) {
      StrTrans(h.path, g.path, f.path);
    }
    assert TotalOrder(PathGe());
    var local := LocalFiles(hot, wanted);
    SortAscends(Filter(hot, (f: File) => HasPath(wanted, f.path)), PathGe());
    SortAscends(Filter(wanted, (f: File) => !HasPath(local, f.path)), PathGe());
    var remote := RemoteFiles(local, wanted);
    hide Sort; hide Filter;
    forall i, j | 0 <= i < j < |local| ensures StrLe(local[j].path, local[i].path) { assert PathGe()(local[i], local[j]); }
    forall i, j | 0 <= i < j < |remote| ensures StrLe(remote[j].path, remote[i].path) { assert PathGe()(remote[i], remote[j]); }
  }

  // ------------------------------------------------------------ what is listed is there

  /** Every listed file is on disk. */
  ghost predicate AllThere(t: Tier) {
    forall d, f | d in t.manifests && f in t.manifests[d] :: f.path in t.disk
  }

  /** No other listed file lies in the evicted file's directory. */
  ghost predicate NoNeighbour(t: Tier, d: int, f: File, rest: seq<File>, l: Layout) {
    && (forall g | g in rest :: l.leaf(g.path) != l.leaf(f.path))
    && (forall e, g | e != d && e in t.manifests && g in t.manifests[e] :: l.leaf(g.path) != l.leaf(f.path))
  }

  /** An eviction leaves every listed file on disk exactly when no other listed file lies in the
      directory it removes: such a file stays listed, and a scan looks for it in vain. */
  lemma EvictionKeepsExact(t: Tier, d: int, f: File, rest: seq<File>, l: Layout)
    requires AllThere(t) && InManifest(t, d, rest + [f])
    ensures AllThere(Evicted(t, d, f, rest, l)) <==> NoNeighbour(t, d, f, rest, l)
  {
    var q := Evicted(t, d, f, rest, l);
    forall g | g in rest ensures g.path in t.disk { assert g in rest + [f]; }
    if AllThere(q) {
      forall g | g in rest ensures l.leaf(g.path) != l.leaf(f.path) { assert g in q.manifests[d] && g.path in q.disk; }
      forall e, g | e != d && e in t.manifests && g in t.manifests[e] ensures l.leaf(g.path) != l.leaf(f.path) {
        assert g in q.manifests[e] && g.path in q.disk;
      }
    }
  }

  ghost predicate OnceEach(files: seq<File>) {
    forall path :: Count(files, PathIs(path)) <= 1
  }

  ghost predicate AllOnce(m: Manifests) {
    forall d | d in m :: OnceEach(m[d])
  }

  lemma OnceLast(rest: seq<File>, f: File)
    requires OnceEach(rest + [f])
    ensures OnceEach(rest) && forall g | g in rest :: g.path != f.path
  {
    forall path ensures Count(rest, PathIs(path)) <= Count(rest + [f], PathIs(path)) { CountLast(rest, f, PathIs(path)); }
    CountLast(rest, f, PathIs(f.path));
    CountPositive(rest, PathIs(f.path));
    hide Count;
  }

  /** The cache is what its manifests list: each listed file once, and on disk. */
  ghost predicate Mirrors(t: Tier, l: Layout) {
    AllThere(t) && AllOnce(t.manifests) && Placed(t.manifests, l) && Alone(t.disk, l)
  }

  lemma EvictMirrors(t: Tier, d: int, f: File, rest: seq<File>, l: Layout)
    requires Mirrors(t, l) && InManifest(t, d, rest + [f]) && OnceEach(rest + [f])
    ensures var q := Evicted(t, d, f, rest, l); Mirrors(q, l) && InManifest(q, d, rest) && OnceEach(rest)
  {
    OnceLast(rest, f);
    assert f in rest + [f] && f.path in t.disk;
    forall g | g in rest ensures g in t.manifests[d] && l.leaf(g.path) != l.leaf(f.path) {
      assert g in rest + [f] && g.path in t.disk;
    }
    forall e, g | e != d && e in t.manifests && g in t.manifests[e] ensures l.leaf(g.path) != l.leaf(f.path) {
      assert g.path in t.disk && g.path != f.path;
    }
    EvictionKeepsExact(t, d, f, rest, l);
    hide Count;
  }

  lemma {:induction false} FilesMirror(p: Progress, d: int, pending: seq<File>, download: string, need: nat, l: Layout)
    requires Mirrors(p.t, l) && InManifest(p.t, d, pending) && OnceEach(pending)
    ensures Mirrors(CleanFiles(p, d, pending, download, need, l).t, l)
    decreases |pending|
  {
    if pending != [] {
      var f, rest := pending[|pending| - 1], pending[..|pending| - 1];
      assert pending == rest + [f] && f in pending && f.path in p.t.disk;
      if !NotOlder(download, f.path, l) {
        EvictMirrors(p.t, d, f, rest, l);
        var q := Progress(Evicted(p.t, d, f, rest, l), p.evicted + [Entry(d, f)], true, Freed);
        hide Mirrors; hide OnceEach; hide InManifest;
        FilesMirror(q, d, rest, download, need, l);
      }
    }
  }

  lemma {:induction false} CountReverse(files: seq<File>, p: File -> bool)
    ensures Count(Reverse(files), p) == Count(files, p)
  {
    if files != [] {
      var rest, last := files[..|files| - 1], files[|files| - 1];
      CountReverse(rest, p);
      CountFirst(last, Reverse(rest), p);
    }
  }

  lemma {:induction false} CountFirst(f: File, files: seq<File>, p: File -> bool)
    ensures Count([f] + files, p) == Count(files, p) + if p(f) then 1 else 0
  {
    var all := [f] + files;
    if files == [] {
      assert all[..0] == [];
    } else {
      assert all[..|all| - 1] == [f] + files[..|files| - 1];
      CountFirst(f, files[..|files| - 1], p);
    }
  }

  lemma PendingOnce(files: seq<File>)
    requires OnceEach(files)
    ensures OnceEach(Pending(files))
  {
    forall path ensures Count(Pending(files), PathIs(path)) == Count(files, PathIs(path)) {
      SortCounts(files, PathLe(), PathIs(path));
      CountReverse(Sort(files, PathLe()), PathIs(path));
    }
  }

  lemma PendingOfDay(t: Tier, d: int, l: Layout)
    requires Mirrors(t, l) && d in t.manifests
    ensures OnceEach(Pending(t.manifests[d]))
  {
    PendingOnce(t.manifests[d]);
  }

  lemma {:induction false} DatesMirror(p: Progress, dates: seq<int>, download: string, need: nat, l: Layout)
    requires Mirrors(p.t, l)
    ensures Mirrors(CleanDates(p, dates, download, need, l).t, l)
    decreases |dates|
  {
    if dates != [] {
      if dates[0] !in p.t.manifests {
        DatesMirror(p, dates[1..], download, need, l);
      } else {
        var files := p.t.manifests[dates[0]];
        PendingMembers(files);
        PendingOfDay(p.t, dates[0], l);
        hide Pending; hide Mirrors; hide OnceEach;
        FilesMirror(p, dates[0], Pending(files), download, need, l);
        DatesMirror(CleanFiles(p, dates[0], Pending(files), download, need, l), dates[1..], download, need, l);
      }
    }
  }

  lemma StoredMirrors(t: Tier, file: File, used: int, date: int, l: Layout)
    requires Mirrors(t, l) && Admissible(t, file, date, l)
    ensures Mirrors(Stored(t, file, used, date), l)
  {
    StoredMembers(t, file, used, date);
    var t', was := Stored(t, file, used, date), FilesOfDay(t.manifests, date);
    forall path ensures Count(t'.manifests[date], PathIs(path)) <= 1 {
      SortCounts(was + [file], PathLe(), PathIs(path));
      CountLast(was, file, PathIs(path));
      CountPositive(was, PathIs(path));
      assert date in t.manifests ==> OnceEach(t.manifests[date]);
    }
    hide Count; hide Sort;
  }

  lemma DownloadMirrors(t: Tier, d: Download, l: Layout)
    requires Mirrors(t, l) && Admissible(t, d.file, d.date, l)
    ensures Mirrors(Downloaded(t, d, l), l)
  {
    var p := Cleanup(t, d.file.path, d.file.fileSize, l);
    DatesMirror(Progress(t, [], false, Exhausted), LeastFirst(t.manifests.Keys), d.file.path, d.file.fileSize, l);
    StillAdmissible(t, d.file, d.date, l);
    ProcessCases(t, d.file, d.date, d.diskAvailable, l);
    hide Mirrors; hide Admissible; hide Stored; hide CleanDates; hide Process;
    StoredMirrors(t, d.file, t.used + d.file.fileSize, d.date, l);
    StoredMirrors(p.t, d.file, p.t.used + d.file.fileSize, d.date, l);
  }

  /** Over every run of downloads the cache lists exactly what is on disk, each file once. */
  lemma {:induction false} ListsWhatIsThere(size: nat, downloads: seq<Download>, l: Layout)
    requires AdmissibleRun(size, downloads, l)
    ensures var t := TierAfter(size, downloads, l);
            && Mirrors(t, l)
            && forall path :: path in t.disk <==> Listed(t.manifests, path)
  {
    var t := TierAfter(size, downloads, l);
    AlwaysMirrors(size, downloads, l);
    QuotaInvariant(size, downloads, l);
    hide TierAfter; hide Bytes; hide Sized;
    forall path | Listed(t.manifests, path) ensures path in t.disk {
      var d :| d in t.manifests && InFiles(t.manifests[d], path);
      var f :| f in t.manifests[d] && f.path == path;
    }
  }

  lemma {:induction false} AlwaysMirrors(size: nat, downloads: seq<Download>, l: Layout)
    requires AdmissibleRun(size, downloads, l)
    ensures Mirrors(TierAfter(size, downloads, l), l)
  {
    if downloads != [] {
      var rest, last := downloads[..|downloads| - 1], downloads[|downloads| - 1];
      AlwaysMirrors(size, rest, l);
      DownloadMirrors(TierAfter(size, rest, l), last, l);
      hide Mirrors; hide Downloaded; hide Admissible;
    }
  }

  // ------------------------------------------------------------------ scans over runs

  /** `get_hot_tier_parquet_files` */
  function HotFiles(m: Manifests, dates: seq<int>): seq<File> {
    if dates == [] then [] else HotFiles(m, dates[..|dates| - 1]) + FilesOfDay(m, dates[|dates| - 1])
  }

  lemma {:induction false} CountAppend(xs: seq<File>, ys: seq<File>, p: File -> bool)
    ensures Count(xs + ys, p) == Count(xs, p) + Count(ys, p)
  {
    if ys == [] {
      assert xs + ys == xs;
    } else {
      assert (xs + ys)[..|xs + ys| - 1] == xs + ys[..|ys| - 1];
      CountAppend(xs, ys[..|ys| - 1], p);
    }
  }

  lemma {:induction false} HotFilesOnce(m: Manifests, dates: seq<int>, l: Layout, path: string)
    requires Placed(m, l) && AllOnce(m) && Distinct(dates, (d: int) => d)
    ensures Count(HotFiles(m, dates), PathIs(path)) <= 1
    ensures forall f | f in HotFiles(m, dates) :: exists d | d in dates :: d in m && f in m[d]
  {
    if dates != [] {
      var rest, last := dates[..|dates| - 1], dates[|dates| - 1];
      assert dates == rest + [last];
      HotFilesOnce(m, rest, l, path);
      var front, back := HotFiles(m, rest), FilesOfDay(m, last);
      CountAppend(front, back, PathIs(path));
      CountPositive(front, PathIs(path));
      CountPositive(back, PathIs(path));
      assert last in m ==> OnceEach(m[last]);
      hide Count;
      forall f, g | f in front && g in back ensures f.path != g.path {
        var d :| d in rest && d in m && f in m[d];
        var i :| 0 <= i < |rest| && rest[i] == d;
        var same := (d: int) => d;
        assert same(dates[i]) != same(dates[|rest|]);
      }
      forall f | f in front + back ensures exists d | d in dates :: d in m && f in m[d] {
        if f in front {
          var d :| d in rest && d in m && f in m[d];
          assert d in dates;
        } else {
          assert last in dates;
        }
      }
    }
  }

  lemma {:induction false} HotFilesAll(m: Manifests, dates: seq<int>)
    ensures forall d, f | d in dates && d in m && f in m[d] :: f in HotFiles(m, dates)
    ensures forall f | f in HotFiles(m, dates) :: exists d | d in m :: f in m[d]
  {
    if dates != [] {
      var rest, last := dates[..|dates| - 1], dates[|dates| - 1];
      assert dates == rest + [last];
      HotFilesAll(m, rest);
    }
  }

  lemma HotListed(m: Manifests, dates: seq<int>, path: string)
    requires forall d | d in m :: d in dates
    ensures HasPath(HotFiles(m, dates), path) <==> Listed(m, path)
  {
    HotFilesAll(m, dates);
    var hot := HotFiles(m, dates);
    hide HotFiles;
    if Listed(m, path) {
      var d :| d in m && InFiles(m[d], path);
      var f :| f in m[d] && f.path == path;
      assert f in hot;
      var k :| 0 <= k < |hot| && hot[k] == f;
    }
    if HasPath(hot, path) {
      var k :| 0 <= k < |hot| && hot[k].path == path;
      assert hot[k] in hot;
      var d :| d in m && hot[k] in m[d];
      assert InFiles(m[d], path);
    }
  }

  /** The files of all dates are those on disk. */
  lemma HotIsDisk(size: nat, downloads: seq<Download>, l: Layout, path: string)
    requires AdmissibleRun(size, downloads, l)
    ensures var t := TierAfter(size, downloads, l);
            HasPath(HotFiles(t.manifests, LeastFirst(t.manifests.Keys)), path) <==> path in t.disk
  {
    ListsWhatIsThere(size, downloads, l);
    var m := TierAfter(size, downloads, l).manifests;
    LeastFirstAscends(m.Keys);
    HotListed(m, LeastFirst(m.Keys), path);
    hide *;
  }

  /** After every run of downloads, a scan of distinct paths reads each file once: from disk if it
      is there, and from the store otherwise. */
  lemma ScansReadOnce(size: nat, downloads: seq<Download>, l: Layout, wanted: seq<File>)
    requires AdmissibleRun(size, downloads, l)
    requires forall path | HasPath(wanted, path) :: Count(wanted, PathIs(path)) == 1
    ensures var t := TierAfter(size, downloads, l);
            var local := LocalFiles(HotFiles(t.manifests, LeastFirst(t.manifests.Keys)), wanted);
            forall path | HasPath(wanted, path) ::
              if path in t.disk
              then Count(local, PathIs(path)) == 1 && Count(RemoteFiles(local, wanted), PathIs(path)) == 0
              else Count(local, PathIs(path)) == 0 && Count(RemoteFiles(local, wanted), PathIs(path)) == 1
    ensures var t := TierAfter(size, downloads, l);
            var hot := HotFiles(t.manifests, LeastFirst(t.manifests.Keys));
            forall path :: ReadTimes(hot, wanted, t.disk, path) == Count(wanted, PathIs(path))
  {
    var t := TierAfter(size, downloads, l);
    AlwaysMirrors(size, downloads, l);
    hide TierAfter; hide AdmissibleRun; hide ReadTimes;
    var dates := LeastFirst(t.manifests.Keys);
    LeastFirstAscends(t.manifests.Keys);
    var hot := HotFiles(t.manifests, dates);
    hide HotFiles; hide LeastFirst; hide Count; hide LocalFiles; hide RemoteFiles;
    forall path | HasPath(wanted, path) && HasPath(hot, path) ensures Count(hot, PathIs(path)) == 1 {
      HotFilesOnce(t.manifests, dates, l, path);
      HasPathCount(hot, path);
    }
    forall path ensures HasPath(hot, path) <==> path in t.disk { HotIsDisk(size, downloads, l, path); }
    forall path ensures HasPath(hot, path) <==> Count(hot, PathIs(path)) > 0 { HasPathCount(hot, path); }
    var local := LocalFiles(hot, wanted);
    forall path ensures Count(local, PathIs(path)) == (if HasPath(wanted, path) then Count(hot, PathIs(path)) else 0)
                        && Count(RemoteFiles(local, wanted), PathIs(path)) == (if HasPath(hot, path) then 0 else Count(wanted, PathIs(path))) {
      SplitCounts(hot, wanted, path);
    }
    ReadOnceExact(hot, wanted, t.disk);
    hide HasPath; hide Mirrors;
  }
}

/** The hot tier: a cache of parquet files with a size quota.  Room for a download is made by
    evicting the oldest files first, each with its whole minute directory; a scan splits its
    files between the cache and the object store. */
module HotTier {
  import opened Values
  import opened Seqs
  import opened Sorting
  import opened MapSums
  import opened Grouping

  /** How paths lie: the directory a file's leaf directory is, and the minute its path names. */
  datatype Layout = Layout(leaf: string -> string, when: string -> Option<int>)

  const MINUTES_PER_DAY: int := 24 * 60

  /** The stored state: the figures of the stream's hot tier, one manifest for each date
      directory, and the parquet files on disk with their sizes. */
  datatype Tier = Tier(size: nat, used: int, available: int, manifests: map<int, seq<File>>, disk: map<string, nat>)

  function PathLe(): (File, File) -> bool {
    (f: File, g: File) => StrLe(f.path, g.path)
  }

  lemma PathOrder()
    ensures TotalOrder(PathLe())
  {
    forall f: File, g: File ensures PathLe()(f, g) || PathLe()(g, f) { StrTotal(f.path, g.path); }
    forall f: File, g: File, h: File | PathLe()(f, g) && PathLe()(g, h) ensures PathLe()(f, h) {
      StrTrans(f.path, g.path, h.path);
    }
  }

  function LeastFirst(days: set<int>): seq<int> {
    if days == {} then []
    else
      HasLeast(days);
      var d :| d in days && forall e | e in days :: d <= e;
      [d] + LeastFirst(days - {d})
  }

  lemma SomeDay(days: set<int>)
    ensures days == {} || exists d :: d in days
  {
    if forall d :: d !in days { assert days == {}; }
  }

  lemma {:induction false} HasLeast(days: set<int>)
    requires days != {}
    ensures exists d | d in days :: forall e | e in days :: d <= e
  {
    SomeDay(days);
    var d :| d in days;
    if days != {d} {
      HasLeast(days - {d});
      var m :| m in days - {d} && forall e | e in days - {d} :: m <= e;
      var least := if d <= m then d else m;
      assert forall e | e in days :: e == d || e in days - {d};
      assert least in days && forall e | e in days :: least <= e;
    }
  }

  predicate IsLeast(d: int, days: set<int>) {
    d in days && forall e | e in days :: d <= e
  }

  lemma LeastFirstStep(days: set<int>) returns (d: int)
    requires days != {}
    ensures IsLeast(d, days) && LeastFirst(days) == [d] + LeastFirst(days - {d})
  {
    HasLeast(days);
    d :| d in days && forall e | e in days :: d <= e;
  }

  lemma {:induction false} LeastFirstAscends(days: set<int>)
    ensures forall d | d in LeastFirst(days) :: d in days
    ensures forall d | d in days :: d in LeastFirst(days)
    ensures forall i, j | 0 <= i < j < |LeastFirst(days)| :: LeastFirst(days)[i] < LeastFirst(days)[j]
  {
    if days != {} {
      var d := LeastFirstStep(days);
      LeastFirstAscends(days - {d});
      hide LeastFirst;
      var rest := LeastFirst(days - {d});
      forall j | 0 <= j < |rest| ensures d < rest[j] { assert rest[j] in rest; }
    }
  }

  // --------------------------------------------------------------------------- cleanup

  datatype Entry = Entry(day: int, file: File)

  /** How the loop over a date's files ended: it ran out, met a file that is not older than the
      download, or freed enough. */
  datatype Ending = Exhausted | Held | Freed

  datatype Progress = Progress(t: Tier, evicted: seq<Entry>, ok: bool, ending: Ending)

  predicate NotOlder(download: string, path: string, l: Layout) {
    l.when(download).Some? && l.when(path).Some? && l.when(download).value <= l.when(path).value
  }

  function Without(disk: map<string, nat>, leaf: string, l: Layout): map<string, nat> {
    map p | p in disk && l.leaf(p) != leaf :: disk[p]
  }

  function Evicted(t: Tier, d: int, f: File, rest: seq<File>, l: Layout): Tier {
    Tier(t.size, t.used - f.fileSize, t.available + f.fileSize, t.manifests[d := rest], Without(t.disk, l.leaf(f.path), l))
  }

  function CleanFiles(p: Progress, d: int, pending: seq<File>, download: string, need: nat, l: Layout): Progress
    decreases |pending|
  {
    if pending == [] then p.(ending := Exhausted)
    else
      var f, rest := pending[|pending| - 1], pending[..|pending| - 1];
      if f.path !in p.t.disk then
        CleanFiles(p.(t := p.t.(manifests := p.t.manifests[d := rest])), d, rest, download, need, l)
      else if NotOlder(download, f.path, l) then p.(ok := false, ending := Held)
      else
        var q := Progress(Evicted(p.t, d, f, rest, l), p.evicted + [Entry(d, f)], true, Freed);
        if q.t.available <= need then CleanFiles(q, d, rest, download, need, l) else q
  }

  function Pending(files: seq<File>): seq<File> {
    Reverse(Sort(files, PathLe()))
  }

  function CleanDates(p: Progress, dates: seq<int>, download: string, need: nat, l: Layout): Progress
    decreases |dates|
  {
    if dates == [] then p
    else if dates[0] !in p.t.manifests then CleanDates(p, dates[1..], download, need, l)
    else
      var q := CleanFiles(p, dates[0], Pending(p.t.manifests[dates[0]]), download, need, l);
      if q.ending.Freed? then q else CleanDates(q, dates[1..], download, need, l)
  }

  function Cleanup(t: Tier, download: string, need: nat, l: Layout): Progress {
    CleanDates(Progress(t, [], false, Exhausted), LeastFirst(t.manifests.Keys), download, need, l)
  }

  function FilesOfDay(manifests: map<int, seq<File>>, d: int): seq<File> {
    if d in manifests then manifests[d] else []
  }

  /** A download: clean up first if the disk or the quota is short; then store the file, its
      size on the caller's counter, and its entry in the date's manifest. */
  function Process(t: Tier, file: File, counter: int, date: int, diskAvailable: bool, l: Layout): (Tier, int, bool) {
    var short := !diskAvailable || t.available <= file.fileSize;
    var p := if short then Cleanup(t, file.path, file.fileSize, l) else Progress(t, [], true, Freed);
    if !p.ok then (p.t, counter, false)
    else
      var used := (if short then p.t.used else counter) + file.fileSize;
      (Stored(p.t, file, used, date), used, true)
  }

  function Stored(t: Tier, file: File, used: int, date: int): Tier {
    Tier(t.size, used, t.available - file.fileSize,
         t.manifests[date := Sort(FilesOfDay(t.manifests, date) + [file], PathLe())], t.disk[file.path := file.fileSize])
  }

  class Manager {
    var tier: Tier

    constructor (size: nat)
      ensures tier == Tier(size, 0, size, map[], map[])
    {
      tier := Tier(size, 0, size, map[], map[]);
    }

    method CleanupOldData(download: string, need: nat, l: Layout) returns (deleted: bool)
      modifies this
      ensures tier == Cleanup(old(tier), download, need, l).t
      ensures deleted == Cleanup(old(tier), download, need, l).ok
    {
      deleted := false;
      var dates := LeastFirst(tier.manifests.Keys);
      ghost var p := Progress(tier, [], false, Exhausted);
      ghost var end := CleanDates(p, dates, download, need, l);
      for i := 0 to |dates|
        invariant p.t == tier && p.ok == deleted
        invariant CleanDates(p, dates[i..], download, need, l) == end
      {
        var date := dates[i];
        assert dates[i..][0] == date && dates[i..][1..] == dates[i + 1..];
        if date !in tier.manifests {
          continue;
        }
        var pending := Pending(tier.manifests[date]);
        ghost var q := CleanFiles(p, date, pending, download, need, l);
        while pending != []
          invariant p.t == tier && p.ok == deleted
          invariant CleanFiles(p, date, pending, download, need, l) == q
          decreases |pending|
        {
          var f := pending[|pending| - 1];
          pending := pending[..|pending| - 1];
          if f.path in tier.disk {
            if NotOlder(download, f.path, l) {
              deleted := false;
              break;
            }
            tier := Evicted(tier, date, f, pending, l);
            deleted := true;
            p := Progress(tier, p.evicted + [Entry(date, f)], true, Freed);
            if tier.available > need {
              return;
            }
          } else {
            tier := tier.(manifests := tier.manifests[date := pending]);
            p := p.(t := tier);
          }
        }
        p := q;
      }
      assert dates[|dates|..] == [];
    }

    method ProcessParquetFile(file: File, counter: int, date: int, diskAvailable: bool, l: Layout)
      returns (newCounter: int, processed: bool)
      modifies this
      ensures (tier, newCounter, processed) == Process(old(tier), file, counter, date, diskAvailable, l)
    {
      newCounter, processed := counter, false;
      if !diskAvailable || tier.available <= file.fileSize {
        var deleted := CleanupOldData(file.path, file.fileSize, l);
        if !deleted {
          return;
        }
        newCounter := tier.used;
      }
      newCounter := newCounter + file.fileSize;
      tier := Stored(tier, file, newCounter, date);
      processed := true;
    }
  }

  // -------------------------------------------------------- what a cleanup does in all

  function Total(entries: seq<Entry>): nat {
    if entries == [] then 0 else Total(entries[..|entries| - 1]) + entries[|entries| - 1].file.fileSize
  }

  /** The leaf directory of some evicted file. */
  predicate LeafEvicted(path: string, evicted: seq<Entry>, l: Layout) {
    exists k | 0 <= k < |evicted| :: l.leaf(evicted[k].file.path) == l.leaf(path)
  }

  /** The disk lost the leaf directories of the evicted files and nothing else. */
  ghost predicate DiskTracks(was: map<string, nat>, now: map<string, nat>, evicted: seq<Entry>, l: Layout) {
    && (forall path | path in now :: path in was && now[path] == was[path] && !LeafEvicted(path, evicted, l))
    && (forall path | path in was && !LeafEvicted(path, evicted, l) :: path in now)
  }

  predicate Evictable(e: Entry, disk: map<string, nat>, download: string, l: Layout) {
    var asked, made := l.when(download), l.when(e.file.path);
    e.file.path in disk && (asked.Some? && made.Some? ==> made.value < asked.value)
  }

  /** Between the start of a cleanup and now: the figures moved by the evicted files' sizes, and
      the disk lost their leaf directories.  Whatever was evicted was there, and was older than
      the download wherever both paths name a minute. */
  ghost predicate Tracks(t0: Tier, p: Progress, download: string, l: Layout) {
    && p.t.size == t0.size
    && p.t.used == t0.used - Total(p.evicted)
    && p.t.available == t0.available + Total(p.evicted)
    && DiskTracks(t0.disk, p.t.disk, p.evicted, l)
    && forall e | e in p.evicted :: Evictable(e, t0.disk, download, l)
  }

  lemma LeafEvictedMore(path: string, evicted: seq<Entry>, e: Entry, l: Layout)
    ensures LeafEvicted(path, evicted + [e], l) <==> LeafEvicted(path, evicted, l) || l.leaf(e.file.path) == l.leaf(path)
  {
    var now := evicted + [e];
    assert now[|evicted|] == e;
    if LeafEvicted(path, evicted, l) {
      var k :| 0 <= k < |evicted| && l.leaf(evicted[k].file.path) == l.leaf(path);
      assert now[k] == evicted[k];
    }
  }

  lemma EvictDisk(was: map<string, nat>, now: map<string, nat>, evicted: seq<Entry>, e: Entry, l: Layout)
    requires DiskTracks(was, now, evicted, l)
    ensures DiskTracks(was, Without(now, l.leaf(e.file.path), l), evicted + [e], l)
  {
    hide LeafEvicted;
    var next := Without(now, l.leaf(e.file.path), l);
    forall path | path in next ensures !LeafEvicted(path, evicted + [e], l) {
      LeafEvictedMore(path, evicted, e, l);
    }
    forall path | path in was && !LeafEvicted(path, evicted + [e], l) ensures path in next {
      LeafEvictedMore(path, evicted, e, l);
    }
  }

  lemma EvictTracks(t0: Tier, p: Progress, d: int, f: File, rest: seq<File>, download: string, l: Layout)
    requires Tracks(t0, p, download, l) && f.path in p.t.disk && !NotOlder(download, f.path, l)
    ensures Tracks(t0, Progress(Evicted(p.t, d, f, rest, l), p.evicted + [Entry(d, f)], true, Freed), download, l)
  {
    var e := Entry(d, f);
    EvictDisk(t0.disk, p.t.disk, p.evicted, e, l);
    var now := p.evicted + [e];
    assert now[..|p.evicted|] == p.evicted;
    assert Total(now) == Total(p.evicted) + f.fileSize;
    assert Evictable(e, t0.disk, download, l);
    hide DiskTracks; hide NotOlder; hide Evictable; hide Without; hide Total; hide LeafEvicted;
    forall x | x in now ensures Evictable(x, t0.disk, download, l) {
      if x != e { assert x in p.evicted; }
    }
  }

  lemma {:induction false} FilesTrack(t0: Tier, p: Progress, d: int, pending: seq<File>, download: string, need: nat, l: Layout)
    requires Tracks(t0, p, download, l)
    ensures Tracks(t0, CleanFiles(p, d, pending, download, need, l), download, l)
    decreases |pending|
  {
    if pending != [] {
      var f, rest := pending[|pending| - 1], pending[..|pending| - 1];
      if f.path !in p.t.disk {
        FilesTrack(t0, p.(t := p.t.(manifests := p.t.manifests[d := rest])), d, rest, download, need, l);
      } else if !NotOlder(download, f.path, l) {
        EvictTracks(t0, p, d, f, rest, download, l);
        FilesTrack(t0, Progress(Evicted(p.t, d, f, rest, l), p.evicted + [Entry(d, f)], true, Freed), d, rest, download, need, l);
      }
    }
  }

  lemma {:induction false} DatesTrack(t0: Tier, p: Progress, dates: seq<int>, download: string, need: nat, l: Layout)
    requires Tracks(t0, p, download, l)
    ensures Tracks(t0, CleanDates(p, dates, download, need, l), download, l)
    decreases |dates|
  {
    if dates != [] {
      if dates[0] !in p.t.manifests {
        DatesTrack(t0, p, dates[1..], download, need, l);
      } else {
        var pending := Pending(p.t.manifests[dates[0]]);
        FilesTrack(t0, p, dates[0], pending, download, need, l);
        DatesTrack(t0, CleanFiles(p, dates[0], pending, download, need, l), dates[1..], download, need, l);
      }
    }
  }

  /** From any state, a cleanup conserves `used + available`, and what it evicts is strictly
      older than the download wherever both paths name a minute. */
  lemma CleanupTracks(t: Tier, download: string, need: nat, l: Layout)
    ensures Tracks(t, Cleanup(t, download, need, l), download, l)
    ensures var p := Cleanup(t, download, need, l); p.t.used + p.t.available == t.used + t.available
  {
    DatesTrack(t, Progress(t, [], false, Exhausted), LeastFirst(t.manifests.Keys), download, need, l);
  }

  // -------------------------------------------------------------------- bytes on disk

  ghost function Bytes(disk: map<string, nat>): nat {
    MapSum(disk)
  }

  lemma BytesMinus(disk: map<string, nat>, path: string)
    requires path in disk
    ensures Bytes(disk) == disk[path] + Bytes(disk - {path})
  {
    MapSumMinus(disk, path);
  }

  lemma {:induction false} BytesLess(small: map<string, nat>, disk: map<string, nat>)
    requires forall path | path in small :: path in disk && small[path] == disk[path]
    ensures Bytes(small) <= Bytes(disk)
    decreases |disk.Keys|
  {
    if small != disk {
      var path :| path in disk && path !in small;
      BytesMinus(disk, path);
      assert (disk - {path}).Keys == disk.Keys - {path};
      BytesLess(small, disk - {path});
    }
  }

  lemma {:induction false} BytesSameExact(small: map<string, nat>, disk: map<string, nat>)
    requires forall path | path in small :: path in disk && small[path] == disk[path]
    ensures Bytes(small) == Bytes(disk) <==> forall path | path in disk && path !in small :: disk[path] == 0
    decreases |disk.Keys|
  {
    if small != disk {
      var path :| path in disk && path !in small;
      BytesMinus(disk, path);
      assert (disk - {path}).Keys == disk.Keys - {path};
      BytesLess(small, disk - {path});
      BytesSameExact(small, disk - {path});
      assert forall p | p in disk && p !in small && p != path :: p in disk - {path};
    }
  }

  /** Evicting a file credits its own size but removes its leaf directory: the figures stay
      exact exactly when nothing else in the directory has any bytes. */
  lemma CreditExact(t: Tier, d: int, f: File, rest: seq<File>, l: Layout)
    requires f.path in t.disk && f.fileSize == t.disk[f.path] && t.used == Bytes(t.disk)
    ensures var q := Evicted(t, d, f, rest, l);
            q.used == Bytes(q.disk) <==>
            forall path | path in t.disk && path != f.path && l.leaf(path) == l.leaf(f.path) :: t.disk[path] == 0
  {
    BytesMinus(t.disk, f.path);
    var disk := Without(t.disk, l.leaf(f.path), l);
    var others := t.disk - {f.path};
    BytesSameExact(disk, others);
    assert forall path | path in others && path !in disk :: path in t.disk && l.leaf(path) == l.leaf(f.path);
    assert forall path | path in t.disk && path != f.path :: path in others && others[path] == t.disk[path];
    assert forall path | path in others && l.leaf(path) == l.leaf(f.path) :: path !in disk;
  }

  lemma BytesWithout(disk: map<string, nat>, path: string, l: Layout)
    requires path in disk
    ensures Bytes(Without(disk, l.leaf(path), l)) + disk[path] <= Bytes(disk)
    ensures Alone(disk, l) ==> Bytes(Without(disk, l.leaf(path), l)) + disk[path] == Bytes(disk)
  {
    BytesMinus(disk, path);
    BytesLess(Without(disk, l.leaf(path), l), disk - {path});
    if Alone(disk, l) {
      assert forall p | p in disk - {path} :: l.leaf(p) != l.leaf(path);
      assert Without(disk, l.leaf(path), l) == disk - {path};
    }
  }

  /** Each leaf directory holds one file. */
  ghost predicate Alone(disk: map<string, nat>, l: Layout) {
    forall p, q | p in disk && q in disk && l.leaf(p) == l.leaf(q) :: p == q
  }

  /** The manifests give each file on disk its size. */
  ghost predicate Sized(manifests: map<int, seq<File>>, disk: map<string, nat>) {
    forall d, f | d in manifests && f in manifests[d] && f.path in disk :: f.fileSize == disk[f.path]
  }

  /** In every case: the figures cover what is on disk. */
  ghost predicate Covered(t: Tier) {
    && t.used >= Bytes(t.disk)
    && Sized(t.manifests, t.disk)
  }

  /** With one file in each leaf directory: the figures are exact. */
  ghost predicate Exact(t: Tier, l: Layout) {
    && t.used == Bytes(t.disk)
    && Sized(t.manifests, t.disk)
    && Alone(t.disk, l)
  }

  /** The date's pending files are still in its manifest. */
  ghost predicate InManifest(t: Tier, d: int, pending: seq<File>) {
    d in t.manifests && forall f | f in pending :: f in t.manifests[d]
  }

  lemma EvictCovers(t: Tier, d: int, f: File, rest: seq<File>, l: Layout)
    requires InManifest(t, d, rest + [f]) && f.path in t.disk
    ensures var q := Evicted(t, d, f, rest, l);
            InManifest(q, d, rest) && (Covered(t) ==> Covered(q)) && (Exact(t, l) ==> Exact(q, l))
  {
    if Sized(t.manifests, t.disk) {
      assert f in rest + [f] && f in t.manifests[d];
      assert f.fileSize == t.disk[f.path];
      BytesWithout(t.disk, f.path, l);
      SizedLess(t, d, rest + [f], rest, Without(t.disk, l.leaf(f.path), l));
      hide Sized; hide Bytes;
    }
  }

  lemma SizedLess(t: Tier, d: int, pending: seq<File>, rest: seq<File>, disk: map<string, nat>)
    requires Sized(t.manifests, t.disk) && InManifest(t, d, pending)
    requires forall f | f in rest :: f in pending
    requires forall path | path in disk :: path in t.disk && disk[path] == t.disk[path]
    ensures Sized(t.manifests[d := rest], disk)
  { }

  lemma {:induction false} FilesCover(p: Progress, d: int, pending: seq<File>, download: string, need: nat, l: Layout)
    requires InManifest(p.t, d, pending)
    ensures Covered(p.t) ==> Covered(CleanFiles(p, d, pending, download, need, l).t)
    ensures Exact(p.t, l) ==> Exact(CleanFiles(p, d, pending, download, need, l).t, l)
    decreases |pending|
  {
    if pending != [] {
      var f, rest := pending[|pending| - 1], pending[..|pending| - 1];
      assert pending == rest + [f];
      if f.path !in p.t.disk {
        if Sized(p.t.manifests, p.t.disk) { SizedLess(p.t, d, pending, rest, p.t.disk); }
        var q := p.(t := p.t.(manifests := p.t.manifests[d := rest]));
        hide Sized; hide Bytes;
        FilesCover(q, d, rest, download, need, l);
      } else if !NotOlder(download, f.path, l) {
        EvictCovers(p.t, d, f, rest, l);
        var q := Progress(Evicted(p.t, d, f, rest, l), p.evicted + [Entry(d, f)], true, Freed);
        hide Covered; hide Exact;
        FilesCover(q, d, rest, download, need, l);
      }
    }
  }

  lemma PendingMembers(files: seq<File>)
    ensures forall f | f in Pending(files) :: f in files
    ensures forall f | f in files :: f in Pending(files)
  {
    SortMembers(files, PathLe());
    ReverseMembers(Sort(files, PathLe()));
  }

  lemma {:induction false} DatesCover(p: Progress, dates: seq<int>, download: string, need: nat, l: Layout)
    ensures Covered(p.t) ==> Covered(CleanDates(p, dates, download, need, l).t)
    ensures Exact(p.t, l) ==> Exact(CleanDates(p, dates, download, need, l).t, l)
    decreases |dates|
  {
    if dates != [] {
      hide Covered; hide Exact;
      if dates[0] !in p.t.manifests {
        DatesCover(p, dates[1..], download, need, l);
      } else {
        PendingMembers(p.t.manifests[dates[0]]);
        var pending := Pending(p.t.manifests[dates[0]]);
        FilesCover(p, dates[0], pending, download, need, l);
        DatesCover(CleanFiles(p, dates[0], pending, download, need, l), dates[1..], download, need, l);
      }
    }
  }

  // ------------------------------------------------------------------- oldest first

  type Manifests = map<int, seq<File>>

  /** Every file's path names a minute of the date it is filed under. */
  ghost predicate Placed(m: Manifests, l: Layout) {
    forall d, f | d in m && f in m[d] :: l.when(f.path).Some? && l.when(f.path).value / MINUTES_PER_DAY == d
  }

  predicate Before(e: Entry, d: int, f: File) {
    e.day < d || (e.day == d && StrLe(e.file.path, f.path))
  }

  /** All that was evicted comes before all that is listed and still on disk. */
  ghost predicate OldestGone(m: Manifests, evicted: seq<Entry>, disk: map<string, nat>) {
    forall e, d, f | e in evicted && d in m && f in m[d] && f.path in disk :: Before(e, d, f)
  }

  /** In the middle of a cleanup: what is listed and on disk is pending or of a later date, and
      comes after what was evicted. */
  ghost predicate Ahead(m: Manifests, p: Progress, d: int, pending: seq<File>, dates: seq<int>) {
    && (forall g, f | g in m && f in m[g] && f.path in p.t.disk :: g in dates || (g == d && f in pending))
    && (forall e | e in p.evicted :: e.day <= d && (e.day == d ==> forall f | f in pending :: StrLe(e.file.path, f.path)))
  }

  ghost predicate Untouched(m: Manifests, t: Tier, dates: seq<int>) {
    forall d | d in dates :: d in m && d in t.manifests && t.manifests[d] == m[d]
  }

  ghost predicate Descends(files: seq<File>) {
    forall i, j | 0 <= i < j < |files| :: StrLe(files[j].path, files[i].path)
  }

  ghost predicate Later(d: int, dates: seq<int>) {
    forall e | e in dates :: d < e
  }

  lemma AheadGone(m: Manifests, p: Progress, d: int, pending: seq<File>, dates: seq<int>)
    requires Ahead(m, p, d, pending, dates) && Later(d, dates)
    ensures OldestGone(m, p.evicted, p.t.disk)
  { }

  lemma EvictAhead(m: Manifests, p: Progress, d: int, f: File, rest: seq<File>, dates: seq<int>, l: Layout)
    requires Ahead(m, p, d, rest + [f], dates) && Descends(rest + [f])
    ensures Ahead(m, Progress(Evicted(p.t, d, f, rest, l), p.evicted + [Entry(d, f)], true, Freed), d, rest, dates)
  {
    var pending := rest + [f];
    forall g | g in rest ensures StrLe(f.path, g.path) {
      var i :| 0 <= i < |rest| && rest[i] == g;
      assert pending[i] == g && pending[|rest|] == f;
    }
    assert forall g | g in rest :: g in pending;
    var q := Progress(Evicted(p.t, d, f, rest, l), p.evicted + [Entry(d, f)], true, Freed);
    assert f.path !in q.t.disk;
    hide StrLe;
  }

  lemma {:induction false} FilesAhead(m: Manifests, p: Progress, d: int, pending: seq<File>, dates: seq<int>,
                                      download: string, need: nat, l: Layout)
    requires Ahead(m, p, d, pending, dates) && Descends(pending) && Later(d, dates) && Untouched(m, p.t, dates)
    ensures var q := CleanFiles(p, d, pending, download, need, l);
            && Untouched(m, q.t, dates)
            && OldestGone(m, q.evicted, q.t.disk)
            && (q.ending.Exhausted? ==> Ahead(m, q, d, [], dates))
            && (q.ending.Held? ==> !q.ok && exists f | f in pending :: NotOlder(download, f.path, l))
            && (q.ending.Freed? ==> q.t.available > need)
    decreases |pending|
  {
    AheadGone(m, p, d, pending, dates);
    hide OldestGone;
    if pending != [] {
      var f, rest := pending[|pending| - 1], pending[..|pending| - 1];
      assert pending == rest + [f];
      if f.path !in p.t.disk {
        var q := p.(t := p.t.(manifests := p.t.manifests[d := rest]));
        assert Ahead(m, q, d, rest, dates);
        hide Ahead;
        FilesAhead(m, q, d, rest, dates, download, need, l);
      } else if !NotOlder(download, f.path, l) {
        EvictAhead(m, p, d, f, rest, dates, l);
        var q := Progress(Evicted(p.t, d, f, rest, l), p.evicted + [Entry(d, f)], true, Freed);
        AheadGone(m, q, d, rest, dates);
        hide Ahead;
        FilesAhead(m, q, d, rest, dates, download, need, l);
      } else {
        assert f in pending;
      }
    }
  }

  lemma PendingDescends(files: seq<File>)
    ensures Descends(Pending(files))
  {
    PathOrder();
    SortAscends(files, PathLe());
    ReverseMembers(Sort(files, PathLe()));
    var up, down := Sort(files, PathLe()), Pending(files);
    hide Sort;
    forall i, j | 0 <= i < j < |down| ensures StrLe(down[j].path, down[i].path) {
      assert PathLe()(up[|up| - 1 - j], up[|up| - 1 - i]);
    }
  }

  /** Once a date held, all later dates hold. */
  lemma {:induction false} HeldStays(m: Manifests, p: Progress, dates: seq<int>, download: string, need: nat, l: Layout)
    requires Untouched(m, p.t, dates) && !p.ok && Distinct(dates, (d: int) => d)
    requires forall d, f | d in dates && d in m && f in m[d] :: NotOlder(download, f.path, l)
    ensures var q := CleanDates(p, dates, download, need, l);
            !q.ok && q.evicted == p.evicted && q.t.disk == p.t.disk
    decreases |dates|
  {
    if dates != [] {
      var d := dates[0];
      assert d in dates;
      PendingMembers(m[d]);
      FilesHold(p, d, Pending(m[d]), download, need, l);
      var q := CleanFiles(p, d, Pending(m[d]), download, need, l);
      forall e | e in dates[1..] ensures e != d {
        var i :| 0 <= i < |dates[1..]| && dates[1..][i] == e;
        assert dates[i + 1] == e;
      }
      hide Pending; hide NotOlder;
      HeldStays(m, q, dates[1..], download, need, l);
    }
  }

  lemma {:induction false} FilesHold(p: Progress, d: int, pending: seq<File>, download: string, need: nat, l: Layout)
    requires !p.ok && forall f | f in pending :: NotOlder(download, f.path, l)
    ensures var q := CleanFiles(p, d, pending, download, need, l);
            && !q.ok && q.evicted == p.evicted && q.t.disk == p.t.disk && !q.ending.Freed?
            && forall e | e != d && e in p.t.manifests :: e in q.t.manifests && q.t.manifests[e] == p.t.manifests[e]
    decreases |pending|
  {
    if pending != [] {
      var f, rest := pending[|pending| - 1], pending[..|pending| - 1];
      assert pending == rest + [f];
      if f.path !in p.t.disk {
        FilesHold(p.(t := p.t.(manifests := p.t.manifests[d := rest])), d, rest, download, need, l);
      }
    }
  }

  /** Nothing listed is on disk. */
  ghost predicate Bare(m: Manifests, disk: map<string, nat>) {
    forall d, f | d in m && f in m[d] :: f.path !in disk
  }

  lemma LaterHeld(m: Manifests, d: int, g: File, dates: seq<int>, download: string, l: Layout)
    requires Placed(m, l) && d in m && g in m[d] && NotOlder(download, g.path, l) && Later(d, dates)
    ensures forall e, f | e in dates && e in m && f in m[e] :: NotOlder(download, f.path, l)
  {
    forall e, f | e in dates && e in m && f in m[e] ensures NotOlder(download, f.path, l) {
      var x, y := l.when(g.path).value, l.when(f.path).value;
      assert x / MINUTES_PER_DAY < y / MINUTES_PER_DAY;
    }
  }

  lemma AheadNext(m: Manifests, p: Progress, d: int, e: int, pending: seq<File>, rest: seq<int>)
    requires Ahead(m, p, d, [], [e] + rest) && Later(d, [e] + rest) && e in m
    requires forall f | f in m[e] :: f in pending
    requires forall j | 0 <= j < |rest| :: e < rest[j]
    ensures Ahead(m, p, e, pending, rest) && Later(e, rest)
  {
    assert e in [e] + rest;
    hide StrLe;
  }

  lemma {:induction false} DatesAhead(m: Manifests, p: Progress, d: int, dates: seq<int>, download: string, need: nat, l: Layout)
    requires Placed(m, l) && Ahead(m, p, d, [], dates) && Untouched(m, p.t, dates)
    requires Later(d, dates) && forall i, j | 0 <= i < j < |dates| :: dates[i] < dates[j]
    ensures var q := CleanDates(p, dates, download, need, l);
            && OldestGone(m, q.evicted, q.t.disk)
            && (q.ok ==> q.t.available > need || Bare(m, q.t.disk))
    decreases |dates|
  {
    AheadGone(m, p, d, [], dates);
    if dates != [] {
      var e, rest := dates[0], dates[1..];
      assert dates == [e] + rest && e in dates;
      var pending := Pending(m[e]);
      PendingMembers(m[e]);
      PendingDescends(m[e]);
      AheadNext(m, p, d, e, pending, rest);
      FilesAhead(m, p, e, pending, rest, download, need, l);
      var q := CleanFiles(p, e, pending, download, need, l);
      hide Pending; hide CleanFiles; hide Ahead; hide OldestGone; hide NotOlder; hide StrLe; hide Later;
      if q.ending.Exhausted? {
        DatesAhead(m, q, e, rest, download, need, l);
      } else if q.ending.Held? {
        var g :| g in pending && NotOlder(download, g.path, l);
        LaterHeld(m, e, g, rest, download, l);
        HeldStays(m, q, rest, download, need, l);
      }
    }
  }

  /** A cleanup evicts in order of date and path: whatever it leaves on disk comes after all it
      evicts.  When it reports success there is room for more than was asked, or nothing listed
      is left to evict. */
  lemma OldestFirst(t: Tier, download: string, need: nat, l: Layout)
    requires Placed(t.manifests, l)
    ensures var p := Cleanup(t, download, need, l);
            && OldestGone(t.manifests, p.evicted, p.t.disk)
            && (p.ok ==> p.t.available > need || Bare(t.manifests, p.t.disk))
  {
    var dates := LeastFirst(t.manifests.Keys);
    LeastFirstAscends(t.manifests.Keys);
    var d := if dates == [] then 0 else dates[0] - 1;
    forall e | e in dates ensures d < e {
      var i :| 0 <= i < |dates| && dates[i] == e;
    }
    DatesAhead(t.manifests, Progress(t, [], false, Exhausted), d, dates, download, need, l);
  }

  // ------------------------------------------------------------------- no more than needed

  /** Each eviction after the first found too little room. */
  ghost predicate NeededAll(available: int, evicted: seq<Entry>, need: nat) {
    forall k | 0 < k < |evicted| :: available + Total(evicted[..k]) <= need
  }

  /** In the middle of a cleanup that has neither room nor met a file too young. */
  ghost predicate StillShort(available: int, p: Progress, need: nat) {
    && NeededAll(available, p.evicted, need)
    && p.t.available == available + Total(p.evicted)
    && (p.evicted != [] ==> p.t.available <= need)
    && (p.ok <==> p.evicted != [])
  }

  lemma EvictNeeded(available: int, p: Progress, d: int, f: File, rest: seq<File>, need: nat, l: Layout)
    requires StillShort(available, p, need)
    ensures var q := Progress(Evicted(p.t, d, f, rest, l), p.evicted + [Entry(d, f)], true, Freed);
            && NeededAll(available, q.evicted, need) && q.t.available == available + Total(q.evicted)
            && (q.t.available <= need ==> StillShort(available, q, need))
  {
    var now := p.evicted + [Entry(d, f)];
    assert now[..|p.evicted|] == p.evicted;
    assert Total(now) == Total(p.evicted) + f.fileSize;
    hide Total;
    forall k | 0 < k < |now| ensures available + Total(now[..k]) <= need {
      assert now[..k] == p.evicted[..k];
      if k == |p.evicted| { assert p.evicted[..k] == p.evicted; }
    }
  }

  lemma {:induction false} FilesNeeded(available: int, p: Progress, d: int, pending: seq<File>, download: string, need: nat, l: Layout)
    requires StillShort(available, p, need)
    ensures var q := CleanFiles(p, d, pending, download, need, l);
            && (q.ending.Exhausted? ==> StillShort(available, q, need))
            && (q.ending.Held? ==> !q.ok && StillShort(available, q.(ok := q.evicted != []), need))
            && (q.ending.Freed? ==> q.ok && q.evicted != [] && q.t.available > need && NeededAll(available, q.evicted, need))
    decreases |pending|
  {
    hide NeededAll; hide Total;
    if pending != [] {
      var f, rest := pending[|pending| - 1], pending[..|pending| - 1];
      if f.path !in p.t.disk {
        FilesNeeded(available, p.(t := p.t.(manifests := p.t.manifests[d := rest])), d, rest, download, need, l);
      } else if !NotOlder(download, f.path, l) {
        EvictNeeded(available, p, d, f, rest, need, l);
        var q := Progress(Evicted(p.t, d, f, rest, l), p.evicted + [Entry(d, f)], true, Freed);
        if q.t.available <= need { FilesNeeded(available, q, d, rest, download, need, l); }
      }
    }
  }

  /** The oldest listed file on disk is at least as young as the download. */
  ghost predicate HeldAt(m: Manifests, disk: map<string, nat>, download: string, l: Layout) {
    exists d, h | d in m && h in m[d] && h.path in disk ::
      && l.when(download).Some? && l.when(h.path).Some? && l.when(download).value <= l.when(h.path).value
      && forall e, f | e in m && f in m[e] && f.path in disk :: Before(Entry(d, h), e, f)
  }

  lemma HeldHere(m: Manifests, p: Progress, d: int, rest: seq<File>, h: File, dates: seq<int>, download: string, l: Layout)
    requires Ahead(m, p, d, rest + [h], dates) && Descends(rest + [h]) && Later(d, dates)
    requires d in m && h in m[d] && h.path in p.t.disk && NotOlder(download, h.path, l)
    ensures HeldAt(m, p.t.disk, download, l)
  {
    var pending := rest + [h];
    forall e, f | e in m && f in m[e] && f.path in p.t.disk ensures Before(Entry(d, h), e, f) {
      if e == d {
        assert f in pending;
        var i :| 0 <= i < |pending| && pending[i] == f;
        assert pending[|rest|] == h;
        StrTotal(h.path, h.path);
        assert StrLe(h.path, f.path);
      } else {
        assert e in dates;
      }
    }
  }

  lemma {:induction false} FilesHeldAt(m: Manifests, p: Progress, d: int, pending: seq<File>, dates: seq<int>,
                                       download: string, need: nat, l: Layout)
    requires Ahead(m, p, d, pending, dates) && Descends(pending) && Later(d, dates)
    requires d in m && forall f | f in pending :: f in m[d]
    ensures var q := CleanFiles(p, d, pending, download, need, l);
            q.ending.Held? ==> HeldAt(m, q.t.disk, download, l)
    decreases |pending|
  {
    if pending != [] {
      var f, rest := pending[|pending| - 1], pending[..|pending| - 1];
      assert pending == rest + [f];
      if f.path !in p.t.disk {
        var q := p.(t := p.t.(manifests := p.t.manifests[d := rest]));
        assert Ahead(m, q, d, rest, dates);
        hide Ahead; hide HeldAt;
        FilesHeldAt(m, q, d, rest, dates, download, need, l);
      } else if !NotOlder(download, f.path, l) {
        EvictAhead(m, p, d, f, rest, dates, l);
        var q := Progress(Evicted(p.t, d, f, rest, l), p.evicted + [Entry(d, f)], true, Freed);
        hide Ahead; hide HeldAt;
        FilesHeldAt(m, q, d, rest, dates, download, need, l);
      } else {
        assert f in pending;
        HeldHere(m, p, d, rest, f, dates, download, l);
      }
    }
  }

  /** How a cleanup ends: with room; with a file too young to go; or with nothing left. */
  ghost predicate Ends(m: Manifests, q: Progress, download: string, need: nat, l: Layout) {
    if q.ok then q.evicted != [] && (q.t.available > need || Bare(m, q.t.disk))
    else (q.evicted != [] ==> q.t.available <= need) && (HeldAt(m, q.t.disk, download, l) || (q.evicted == [] && Bare(m, q.t.disk)))
  }

  lemma {:induction false} DatesEnd(available: int, m: Manifests, p: Progress, d: int, dates: seq<int>,
                                    download: string, need: nat, l: Layout)
    requires Placed(m, l) && Ahead(m, p, d, [], dates) && Untouched(m, p.t, dates) && StillShort(available, p, need)
    requires Later(d, dates) && forall i, j | 0 <= i < j < |dates| :: dates[i] < dates[j]
    ensures var q := CleanDates(p, dates, download, need, l);
            NeededAll(available, q.evicted, need) && (q.t.available == available + Total(q.evicted) ==> Ends(m, q, download, need, l))
    decreases |dates|
  {
    hide NeededAll; hide Total; hide HeldAt;
    if dates != [] {
      var e, rest := dates[0], dates[1..];
      assert dates == [e] + rest && e in dates;
      var pending := Pending(m[e]);
      PendingMembers(m[e]);
      PendingDescends(m[e]);
      AheadNext(m, p, d, e, pending, rest);
      FilesAhead(m, p, e, pending, rest, download, need, l);
      FilesHeldAt(m, p, e, pending, rest, download, need, l);
      FilesNeeded(available, p, e, pending, download, need, l);
      var q := CleanFiles(p, e, pending, download, need, l);
      hide Pending; hide CleanFiles; hide Ahead; hide OldestGone; hide NotOlder; hide StrLe; hide Later;
      if q.ending.Exhausted? {
        DatesEnd(available, m, q, e, rest, download, need, l);
      } else if q.ending.Held? {
        var g :| g in pending && NotOlder(download, g.path, l);
        LaterHeld(m, e, g, rest, download, l);
        HeldStays(m, q, rest, download, need, l);
      }
    }
  }

  /** A cleanup evicts no file after one that made enough room, and all it may: it fails exactly
      when the oldest listed file left is at least as young as the download, and evicting has not
      made room, or when there was nothing to evict. */
  lemma CleanupEnds(t: Tier, download: string, need: nat, l: Layout)
    requires Placed(t.manifests, l)
    ensures var p := Cleanup(t, download, need, l);
            && (forall k | 0 < k < |p.evicted| :: t.available + Total(p.evicted[..k]) <= need)
            && Ends(t.manifests, p, download, need, l)
  {
    var dates := LeastFirst(t.manifests.Keys);
    LeastFirstAscends(t.manifests.Keys);
    CleanupTracks(t, download, need, l);
    var d := if dates == [] then 0 else dates[0] - 1;
    forall e | e in dates ensures d < e {
      var i :| 0 <= i < |dates| && dates[i] == e;
    }
    hide LeastFirst; hide Ends; hide CleanDates;
    DatesEnd(t.available, t.manifests, Progress(t, [], false, Exhausted), d, dates, download, need, l);
  }

  // -------------------------------------------------------------------- runs of downloads

  /** Some manifest lists the path. */
  ghost predicate Listed(m: Manifests, path: string) {
    exists d | d in m :: InFiles(m[d], path)
  }

  ghost predicate InFiles(files: seq<File>, path: string) {
    exists f | f in files :: f.path == path
  }

  /** The date's pending files and its manifest have the same members. */
  ghost predicate SameMembers(t: Tier, d: int, pending: seq<File>) {
    InManifest(t, d, pending) && forall f | f in t.manifests[d] :: f in pending
  }

  /** All that is on disk is listed, and listed where its path places it. */
  ghost predicate Catalogued(t: Tier, l: Layout) {
    (forall path | path in t.disk :: Listed(t.manifests, path)) && Placed(t.manifests, l)
  }

  lemma DroppedEntry(t: Tier, d: int, f: File, rest: seq<File>, disk: map<string, nat>, l: Layout)
    requires Catalogued(t, l) && SameMembers(t, d, rest + [f])
    requires forall path | path in disk :: path in t.disk && path != f.path
    ensures Catalogued(t.(manifests := t.manifests[d := rest], disk := disk), l)
    ensures SameMembers(t.(manifests := t.manifests[d := rest], disk := disk), d, rest)
  {
    var m := t.manifests[d := rest];
    forall path | path in disk ensures Listed(m, path) {
      assert Listed(t.manifests, path);
      var e :| e in t.manifests && InFiles(t.manifests[e], path);
      var g :| g in t.manifests[e] && g.path == path;
      if e == d { assert g in rest + [f] && g != f; }
      assert InFiles(m[e], path);
    }
    forall e, g | e in m && g in m[e] ensures e in t.manifests && g in t.manifests[e] {
      if e == d { assert g in rest + [f]; }
    }
  }

  lemma {:induction false} FilesCatalogued(p: Progress, d: int, pending: seq<File>, download: string, need: nat, l: Layout)
    requires Catalogued(p.t, l) && SameMembers(p.t, d, pending)
    ensures Catalogued(CleanFiles(p, d, pending, download, need, l).t, l)
    decreases |pending|
  {
    if pending != [] {
      var f, rest := pending[|pending| - 1], pending[..|pending| - 1];
      assert pending == rest + [f];
      if f.path !in p.t.disk {
        DroppedEntry(p.t, d, f, rest, p.t.disk, l);
        var q := p.t.(manifests := p.t.manifests[d := rest]);
        assert q == p.t.(manifests := p.t.manifests[d := rest], disk := p.t.disk);
        hide Catalogued; hide SameMembers;
        FilesCatalogued(p.(t := q), d, rest, download, need, l);
      } else if !NotOlder(download, f.path, l) {
        DroppedEntry(p.t, d, f, rest, Without(p.t.disk, l.leaf(f.path), l), l);
        var q := Progress(Evicted(p.t, d, f, rest, l), p.evicted + [Entry(d, f)], true, Freed);
        hide Catalogued; hide SameMembers;
        FilesCatalogued(q, d, rest, download, need, l);
      }
    }
  }

  lemma {:induction false} DatesCatalogued(p: Progress, dates: seq<int>, download: string, need: nat, l: Layout)
    requires Catalogued(p.t, l)
    ensures Catalogued(CleanDates(p, dates, download, need, l).t, l)
    decreases |dates|
  {
    if dates != [] {
      hide Catalogued;
      if dates[0] !in p.t.manifests {
        DatesCatalogued(p, dates[1..], download, need, l);
      } else {
        PendingMembers(p.t.manifests[dates[0]]);
        var pending := Pending(p.t.manifests[dates[0]]);
        FilesCatalogued(p, dates[0], pending, download, need, l);
        DatesCatalogued(CleanFiles(p, dates[0], pending, download, need, l), dates[1..], download, need, l);
      }
    }
  }

  /** Figures that add up to the quota, are exact, and belong to a disk the manifests describe. */
  ghost predicate Sound(t: Tier, l: Layout) {
    t.used + t.available == t.size && Exact(t, l) && Catalogued(t, l)
  }

  /** What a download needs of its file: it is not there, it has a directory to itself, it is
      filed under its own date, and its size is the one recorded for its path. */
  ghost predicate Admissible(t: Tier, file: File, date: int, l: Layout) {
    && file.path !in t.disk
    && (forall path | path in t.disk :: l.leaf(path) != l.leaf(file.path))
    && l.when(file.path).Some? && l.when(file.path).value / MINUTES_PER_DAY == date
    && (forall d, f | d in t.manifests && f in t.manifests[d] && f.path == file.path :: f.fileSize == file.fileSize)
  }

  lemma StoredSound(t: Tier, file: File, date: int, l: Layout)
    requires Sound(t, l) && Admissible(t, file, date, l)
    ensures Sound(Stored(t, file, t.used + file.fileSize, date), l)
  {
    var t' := Stored(t, file, t.used + file.fileSize, date);
    StoredBytes(t.disk, file);
    StoredMembers(t, file, t.used + file.fileSize, date);
    hide Stored;
    StoredExact(t, t', file, date, l);
    hide Sized; hide Alone; hide Bytes; hide Catalogued; hide Admissible;
  }

  lemma StoredBytes(disk: map<string, nat>, file: File)
    requires file.path !in disk
    ensures Bytes(disk[file.path := file.fileSize]) == Bytes(disk) + file.fileSize
  {
    BytesMinus(disk[file.path := file.fileSize], file.path);
    assert disk[file.path := file.fileSize] - {file.path} == disk;
  }

  lemma StoredMembers(t: Tier, file: File, used: int, date: int)
    ensures var t' := Stored(t, file, used, date);
            && t'.disk == t.disk[file.path := file.fileSize] && t'.size == t.size
            && t'.used == used && t'.available == t.available - file.fileSize
            && date in t'.manifests && file in t'.manifests[date]
            && (forall d, f | d in t.manifests && f in t.manifests[d] :: d in t'.manifests && f in t'.manifests[d])
            && (forall d, f | d in t'.manifests && f in t'.manifests[d] ::
                  (d in t.manifests && f in t.manifests[d]) || (d == date && f == file))
  {
    SortMembers(FilesOfDay(t.manifests, date) + [file], PathLe());
    hide Sort;
  }

  lemma StoredExact(t: Tier, t': Tier, file: File, date: int, l: Layout)
    requires Sized(t.manifests, t.disk) && Alone(t.disk, l) && Admissible(t, file, date, l)
    requires t'.disk == t.disk[file.path := file.fileSize]
    requires forall d, f | d in t'.manifests && f in t'.manifests[d] ::
               (d in t.manifests && f in t.manifests[d]) || (d == date && f == file)
    ensures Sized(t'.manifests, t'.disk) && Alone(t'.disk, l)
  { }

  lemma CleanupSound(t: Tier, download: string, need: nat, l: Layout)
    requires Sound(t, l)
    ensures var p := Cleanup(t, download, need, l);
            && Sound(p.t, l) && p.t.size == t.size
            && (p.ok ==> p.t.available > need || p.t.available == p.t.size)
  {
    CleanupTracks(t, download, need, l);
    OldestFirst(t, download, need, l);
    var dates := LeastFirst(t.manifests.Keys);
    DatesCover(Progress(t, [], false, Exhausted), dates, download, need, l);
    DatesCatalogued(Progress(t, [], false, Exhausted), dates, download, need, l);
    var p := Cleanup(t, download, need, l);
    hide Cleanup; hide OldestGone; hide Catalogued; hide Sized; hide Alone;
  }

  /** A download keeps the figures sound when the caller's counter is the stored one; and the
      unsigned subtraction from the available size does not go below zero exactly when the file
      is no larger than the whole quota. */
  lemma ProcessSound(t: Tier, file: File, date: int, diskAvailable: bool, l: Layout)
    requires Sound(t, l) && Admissible(t, file, date, l)
    ensures var (t', counter, processed) := Process(t, file, t.used, date, diskAvailable, l);
            && Sound(t', l) && t'.size == t.size
            && (processed ==> counter == t'.used)
            && (processed ==> (t'.available >= 0 <==> file.fileSize <= t.size))
            && (!processed ==> counter == t.used)
  {
    hide *;
    var p := Cleanup(t, file.path, file.fileSize, l);
    CleanupSound(t, file.path, file.fileSize, l);
    StillAdmissible(t, file, date, l);
    if !diskAvailable || t.available <= file.fileSize {
      if p.ok { StoreFits(p.t, file, date, l); }
    } else {
      StoreFits(t, file, date, l);
    }
    ProcessCases(t, file, date, diskAvailable, l);
  }

  lemma ProcessCases(t: Tier, file: File, date: int, diskAvailable: bool, l: Layout)
    ensures var p := Cleanup(t, file.path, file.fileSize, l);
            Process(t, file, t.used, date, diskAvailable, l) ==
            if diskAvailable && t.available > file.fileSize
            then (Stored(t, file, t.used + file.fileSize, date), t.used + file.fileSize, true)
            else if p.ok then (Stored(p.t, file, p.t.used + file.fileSize, date), p.t.used + file.fileSize, true)
            else (p.t, t.used, false)
  {
    hide Cleanup; hide Stored;
  }

  lemma StoreFits(t: Tier, file: File, date: int, l: Layout)
    requires Sound(t, l) && Admissible(t, file, date, l)
    ensures var t' := Stored(t, file, t.used + file.fileSize, date);
            && Sound(t', l) && t'.size == t.size && t'.used == t.used + file.fileSize
            && (t.available > file.fileSize || t.available == t.size ==> (t'.available >= 0 <==> file.fileSize <= t.size))
  {
    StoredSound(t, file, date, l);
    StoredMembers(t, file, t.used + file.fileSize, date);
    SoundFigures(t, l);
    hide Sound; hide Stored;
  }

  lemma SoundFigures(t: Tier, l: Layout)
    ensures Sound(t, l) ==> t.used + t.available == t.size && t.used >= 0
  { }

  /** A cleanup leaves no trace that would stop the download. */
  lemma StillAdmissible(t: Tier, file: File, date: int, l: Layout)
    requires Admissible(t, file, date, l)
    ensures Admissible(Cleanup(t, file.path, file.fileSize, l).t, file, date, l)
  {
    CleanupTracks(t, file.path, file.fileSize, l);
    DatesShrink(Progress(t, [], false, Exhausted), LeastFirst(t.manifests.Keys), file.path, file.fileSize, l);
  }

  ghost predicate Shrinks(m: Manifests, n: Manifests) {
    forall d, f | d in n && f in n[d] :: d in m && f in m[d]
  }

  lemma {:induction false} FilesShrink(p: Progress, d: int, pending: seq<File>, download: string, need: nat, l: Layout)
    requires InManifest(p.t, d, pending)
    ensures Shrinks(p.t.manifests, CleanFiles(p, d, pending, download, need, l).t.manifests)
    decreases |pending|
  {
    if pending != [] {
      var f, rest := pending[|pending| - 1], pending[..|pending| - 1];
      assert pending == rest + [f];
      if f.path !in p.t.disk {
        FilesShrink(p.(t := p.t.(manifests := p.t.manifests[d := rest])), d, rest, download, need, l);
      } else if !NotOlder(download, f.path, l) {
        FilesShrink(Progress(Evicted(p.t, d, f, rest, l), p.evicted + [Entry(d, f)], true, Freed), d, rest, download, need, l);
      }
    }
  }

  lemma {:induction false} DatesShrink(p: Progress, dates: seq<int>, download: string, need: nat, l: Layout)
    ensures Shrinks(p.t.manifests, CleanDates(p, dates, download, need, l).t.manifests)
    decreases |dates|
  {
    if dates != [] {
      if dates[0] !in p.t.manifests {
        DatesShrink(p, dates[1..], download, need, l);
      } else {
        PendingMembers(p.t.manifests[dates[0]]);
        var pending := Pending(p.t.manifests[dates[0]]);
        FilesShrink(p, dates[0], pending, download, need, l);
        hide Pending;
        DatesShrink(CleanFiles(p, dates[0], pending, download, need, l), dates[1..], download, need, l);
      }
    }
  }

  datatype Download = Download(file: File, date: int, diskAvailable: bool)

  function Downloaded(t: Tier, d: Download, l: Layout): Tier {
    Process(t, d.file, t.used, d.date, d.diskAvailable, l).0
  }

  function TierAfter(size: nat, downloads: seq<Download>, l: Layout): Tier {
    if downloads == [] then Tier(size, 0, size, map[], map[])
    else Downloaded(TierAfter(size, downloads[..|downloads| - 1], l), downloads[|downloads| - 1], l)
  }

  ghost predicate AdmissibleRun(size: nat, downloads: seq<Download>, l: Layout) {
    downloads == [] ||
    (var rest, last := downloads[..|downloads| - 1], downloads[|downloads| - 1];
     && AdmissibleRun(size, rest, l) && last.file.fileSize <= size
     && Admissible(TierAfter(size, rest, l), last.file, last.date, l))
  }

  /** Over every run of downloads that start from the stored figure, the quota holds: the two
      figures add up to it, neither is negative, and `used` is the bytes on disk. */
  lemma {:induction false} QuotaInvariant(size: nat, downloads: seq<Download>, l: Layout)
    requires AdmissibleRun(size, downloads, l)
    ensures var t := TierAfter(size, downloads, l);
            Sound(t, l) && t.size == size && 0 <= t.used == Bytes(t.disk) <= size && t.available >= 0
  {
    if downloads != [] {
      var rest, last := downloads[..|downloads| - 1], downloads[|downloads| - 1];
      QuotaInvariant(size, rest, l);
      var t := TierAfter(size, rest, l);
      ProcessSound(t, last.file, last.date, last.diskAvailable, l);
      NotProcessed(t, last, l);
      hide Process; hide Catalogued; hide Sized; hide Alone; hide Admissible;
    }
  }

  lemma NotProcessed(t: Tier, d: Download, l: Layout)
    requires t.available >= 0
    ensures var (t', _, processed) := Process(t, d.file, t.used, d.date, d.diskAvailable, l);
            !processed ==> t'.available >= 0
  {
    CleanupTracks(t, d.file.path, d.file.fileSize, l);
    hide Cleanup;
  }

  /** A caller that goes on with its own counter has the stored figure exactly when the file was
      stored, or the cleanup that could not make room had evicted no bytes either. */
  lemma StaleCounterExact(t: Tier, file: File, date: int, diskAvailable: bool, l: Layout)
    ensures var (t', counter, processed) := Process(t, file, t.used, date, diskAvailable, l);
            counter == t'.used <==> processed || Total(Cleanup(t, file.path, file.fileSize, l).evicted) == 0
  {
    ProcessCases(t, file, date, diskAvailable, l);
    var p := Cleanup(t, file.path, file.fileSize, l);
    CleanupTracks(t, file.path, file.fileSize, l);
    StoredMembers(t, file, t.used + file.fileSize, date);
    StoredMembers(p.t, file, p.t.used + file.fileSize, date);
    hide *;
    TracksFigures(t, p, file.path, l);
  }

  /** From whatever counter the caller has: figures that add up still do after a download exactly
      when that counter was the stored figure, or a cleanup read the figure anew. */
  lemma StaleCounterSpreads(t: Tier, file: File, counter: int, date: int, diskAvailable: bool, l: Layout)
    requires t.used + t.available == t.size
    ensures var (t', counter', processed) := Process(t, file, counter, date, diskAvailable, l);
            && (processed ==> counter' == t'.used)
            && (t'.used + t'.available == t'.size <==>
                counter == t.used || !processed || !diskAvailable || t.available <= file.fileSize)
  {
    var p := Cleanup(t, file.path, file.fileSize, l);
    CleanupTracks(t, file.path, file.fileSize, l);
    StoredFigures(t, file, counter + file.fileSize, date);
    StoredFigures(p.t, file, p.t.used + file.fileSize, date);
    TracksFigures(t, p, file.path, l);
    hide Cleanup; hide Stored; hide Tracks;
  }

  lemma StoredFigures(t: Tier, file: File, used: int, date: int)
    ensures var t' := Stored(t, file, used, date);
            t'.used == used && t'.available == t.available - file.fileSize && t'.size == t.size
  { }

  lemma TracksFigures(t: Tier, p: Progress, download: string, l: Layout)
    ensures Tracks(t, p, download, l) ==> p.t.used == t.used - Total(p.evicted) && p.t.size == t.size
  { }

  const OLD := File("a", 0, 1, 0, [])
  const NEW := File("b", 0, 1, 0, [])
  const WANTED := File("c", 0, 2, 0, [])

  /** One file to a directory; `a` is older than `c`, and `b` is newer. */
  function SmallLayout(): Layout {
    Layout((p: string) => p, (p: string) => Some(if p == "a" then 0 else if p == "b" then 2 else 1))
  }

  const SMALL: Tier := Tier(2, 2, 0, map[0 := [OLD, NEW]], map["a" := 1, "b" := 1])

  lemma SmallBytes()
    ensures Bytes(SMALL.disk) == 2
  {
    var disk: map<string, nat> := map["a" := 1, "b" := 1];
    BytesMinus(disk, "a");
    BytesMinus(disk - {"a"}, "b");
    assert disk - {"a"} - {"b"} == map[];
    assert Bytes(map[]) == 0;
    hide Bytes;
  }

  lemma SmallListed()
    ensures forall d, f | d in SMALL.manifests && f in SMALL.manifests[d] :: d == 0 && (f == OLD || f == NEW)
  { }

  lemma SmallIsSound()
    ensures Sound(SMALL, SmallLayout()) && Admissible(SMALL, WANTED, 0, SmallLayout())
  {
    SmallBytes();
    SmallListed();
    hide Bytes;
    var m := SMALL.manifests;
    assert m[0] == [OLD, NEW] && OLD in m[0] && NEW in m[0];
    assert InFiles(m[0], "a") && InFiles(m[0], "b");
    assert Listed(m, "a") && Listed(m, "b");
    assert forall path | path in SMALL.disk :: path == "a" || path == "b";
    hide Listed; hide InFiles;
  }

  lemma PendingPair(f: File, g: File)
    requires PathLe()(f, g)
    ensures Pending([f, g]) == [g, f]
  {
    var le := PathLe();
    hide PathLe;
    assert [f][..0] == [] && [f, g][..1] == [f];
    assert Sort([f], le) == [f];
    assert Sort([f, g], le) == [f, g];
    assert Reverse([f]) == [f];
  }

  lemma OneDate(d: int)
    ensures LeastFirst({d}) == [d]
  {
    HasLeast({d});
    assert {d} - {d} == {} && LeastFirst({}) == [];
  }

  lemma SmallPending()
    ensures Pending([OLD, NEW]) == [NEW, OLD]
    ensures LeastFirst({0}) == [0]
  {
    assert PathLe()(OLD, NEW);
    hide PathLe; hide Pending; hide LeastFirst;
    PendingPair(OLD, NEW);
    OneDate(0);
  }

  function SmallCleaned(): Progress {
    Progress(Evicted(SMALL, 0, OLD, [NEW], SmallLayout()), [Entry(0, OLD)], false, Held)
  }

  lemma SmallCleanup()
    ensures Cleanup(SMALL, "c", 2, SmallLayout()) == SmallCleaned()
  {
    var l := SmallLayout();
    SmallPending();
    hide Pending; hide LeastFirst;
    assert SMALL.manifests.Keys == {0};
    var p0 := Progress(SMALL, [], false, Exhausted);
    assert [NEW, OLD][..1] == [NEW] && [NEW][..0] == [] && [0][1..] == [];
    assert !NotOlder("c", "a", l) && NotOlder("c", "b", l);
    var p1 := Progress(Evicted(SMALL, 0, OLD, [NEW], l), [Entry(0, OLD)], true, Freed);
    assert "b" in p1.t.disk;
    assert CleanFiles(p1, 0, [NEW], "c", 2, l) == SmallCleaned();
    assert CleanFiles(p0, 0, [NEW, OLD], "c", 2, l) == SmallCleaned();
    assert CleanDates(p0, [0], "c", 2, l) == SmallCleaned();
  }

  /** Sound figures and an admissible file do not prevent it: the old file is evicted, which is
      not enough, and the new one is too new to follow. */
  lemma FailedCleanupEvicts()
    ensures exists t, file, l | Sound(t, l) && Admissible(t, file, 0, l) ::
              var (t', counter, processed) := Process(t, file, t.used, 0, true, l); !processed && counter != t'.used
  {
    SmallIsSound();
    SmallCleanup();
    ProcessCases(SMALL, WANTED, 0, true, SmallLayout());
    hide Cleanup; hide Process; hide Sound; hide Admissible; hide SmallLayout;
    assert Process(SMALL, WANTED, SMALL.used, 0, true, SmallLayout()) == (SmallCleaned().t, SMALL.used, false);
  }
}

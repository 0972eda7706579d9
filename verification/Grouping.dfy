/** Manifest files, the day each belongs to, and the grouping of a batch of changes by day:
    rayon's parallel fold and reduce yields the left-to-right group-by, however the batch is
    split and however the pieces are combined. */
module Grouping {
  import opened Values
  import opened Seqs
  import opened Pruning
  import opened TimeFilters

  /** A manifest's entry for one parquet file. */
  datatype File = File(path: string, numRows: nat, fileSize: nat, ingestionSize: nat, columns: seq<FileColumn>)

  const DEFAULT_TIMESTAMP_KEY := "p_timestamp"

  function TimeColumn(timePartition: Option<string>): string {
    if timePartition.Some? then timePartition.value else DEFAULT_TIMESTAMP_KEY
  }

  /** What `get_file_bounds` demands: it panics on a file without integer statistics for its
      time column. */
  predicate HasTimeBounds(f: File, column: string) {
    && FindColumn(f.columns, column).Some?
    && FindColumn(f.columns, column).value.stats.Some?
    && FindColumn(f.columns, column).value.stats.value.min.Int?
  }

  /** The lower of a file's bounds, the only one that is used. */
  function LowerBound(f: File, column: string): int
    requires HasTimeBounds(f, column)
  {
    FindColumn(f.columns, column).value.stats.value.min.i * NANOS_PER_MILLI
  }

  function TimeBound(change: File, timePartition: Option<string>): int
    requires HasTimeBounds(change, TimeColumn(timePartition))
  {
    LowerBound(change, TimeColumn(timePartition))
  }

  /** The UTC day an instant falls on; days count from the epoch, before it downwards. */
  function Day(t: int): int {
    t / NANOS_PER_DAY
  }

  type Range = (int, int)

  /** `create_partition_bounds`: from midnight to 23:59:59.999999999 of the instant's day. */
  function PartitionBounds(t: int): Range {
    var midnight := Day(t) * NANOS_PER_DAY;
    var endOfDay := (23 * 3600 + 59 * 60 + 59) * NANOS_PER_SECOND + 999_999_999;
    (midnight, Day(midnight) * NANOS_PER_DAY + endOfDay)
  }

  /** The bounds of an instant's partition are those of its whole UTC day, so two partitions
      are equal or disjoint. */
  lemma PartitionIsWholeDay(t: int, u: int)
    ensures PartitionBounds(t) == (Day(t) * NANOS_PER_DAY, Day(t) * NANOS_PER_DAY + NANOS_PER_DAY - 1)
    ensures PartitionBounds(t).0 <= u <= PartitionBounds(t).1 <==> Day(u) == Day(t)
    ensures PartitionBounds(t) == PartitionBounds(u) <==> Day(t) == Day(u)
  {
    var d := Day(t);
    assert (d * NANOS_PER_DAY) / NANOS_PER_DAY == d;
  }

  function KeyOf(change: File, timePartition: Option<string>): Range
    requires HasTimeBounds(change, TimeColumn(timePartition))
  {
    PartitionBounds(TimeBound(change, timePartition))
  }

  predicate Boundable(changes: seq<File>, timePartition: Option<string>) {
    forall c | c in changes :: HasTimeBounds(c, TimeColumn(timePartition))
  }

  type Groups = map<Range, seq<File>>

  function Get(g: Groups, k: Range): seq<File> {
    if k in g then g[k] else []
  }

  /** The fold's step: `acc.entry(key).or_default().push(change)`. */
  function Pushed(g: Groups, k: Range, change: File): Groups {
    g[k := Get(g, k) + [change]]
  }

  /** The fold over one chunk. */
  function FoldChunk(chunk: seq<File>, timePartition: Option<string>): Groups
    requires Boundable(chunk, timePartition)
  {
    if chunk == [] then map[]
    else
      var last := chunk[|chunk| - 1];
      Pushed(FoldChunk(chunk[..|chunk| - 1], timePartition), KeyOf(last, timePartition), last)
  }

  /** The reduce's step: every entry of `g` is appended to `acc`'s entry for its key. */
  function Merged(acc: Groups, g: Groups): Groups {
    map k | k in acc.Keys + g.Keys :: Get(acc, k) + Get(g, k)
  }

  /** One way the parallel iterator may split and recombine the work.  `Nothing` is an identity
      element the reduce may throw in anywhere. */
  datatype Schedule = Chunk(changes: seq<File>) | Both(left: Schedule, right: Schedule) | Nothing

  function Work(s: Schedule): seq<File> {
    match s
    case Chunk(changes) => changes
    case Both(left, right) => Work(left) + Work(right)
    case Nothing => []
  }

  function Run(s: Schedule, timePartition: Option<string>): Groups
    requires Boundable(Work(s), timePartition)
  {
    match s
    case Chunk(changes) => FoldChunk(changes, timePartition)
    case Both(left, right) =>
      assert forall c | c in Work(left) :: c in Work(s);
      assert forall c | c in Work(right) :: c in Work(s);
      Merged(Run(left, timePartition), Run(right, timePartition))
    case Nothing => map[]
  }

  lemma PushedMerged(left: Groups, right: Groups, k: Range, change: File)
    ensures Pushed(Merged(left, right), k, change) == Merged(left, Pushed(right, k, change))
  {
    var once, twice := Pushed(Merged(left, right), k, change), Merged(left, Pushed(right, k, change));
    assert Get(Merged(left, right), k) + [change] == Get(left, k) + (Get(right, k) + [change]);
    assert once.Keys == twice.Keys;
    forall j | j in once ensures once[j] == twice[j] {
      assert j != k ==> Get(Pushed(right, k, change), j) == Get(right, j);
    }
  }

  lemma NothingMerged(g: Groups)
    ensures Merged(g, map[]) == g && Merged(map[], g) == g
  {
    assert forall k | k in g :: Get(g, k) + [] == g[k] && [] + Get(g, k) == g[k];
  }

  lemma {:induction false} FoldAppend(xs: seq<File>, ys: seq<File>, timePartition: Option<string>)
    requires Boundable(xs, timePartition) && Boundable(ys, timePartition)
    ensures Boundable(xs + ys, timePartition)
    ensures FoldChunk(xs + ys, timePartition) == Merged(FoldChunk(xs, timePartition), FoldChunk(ys, timePartition))
  {
    hide HasTimeBounds; hide KeyOf; hide Pushed; hide Merged;
    if ys == [] {
      assert xs + ys == xs;
      NothingMerged(FoldChunk(xs, timePartition));
    } else {
      var rest, last := ys[..|ys| - 1], ys[|ys| - 1];
      assert (xs + ys)[..|xs + ys| - 1] == xs + rest;
      FoldAppend(xs, rest, timePartition);
      PushedMerged(FoldChunk(xs, timePartition), FoldChunk(rest, timePartition), KeyOf(last, timePartition), last);
    }
  }

  /** Every schedule yields the left-to-right fold over the whole batch. */
  lemma {:induction false} ParallelIsSequential(s: Schedule, timePartition: Option<string>)
    requires Boundable(Work(s), timePartition)
    ensures Run(s, timePartition) == FoldChunk(Work(s), timePartition)
  {
    if s.Both? {
      assert forall c | c in Work(s.left) :: c in Work(s);
      assert forall c | c in Work(s.right) :: c in Work(s);
      ParallelIsSequential(s.left, timePartition);
      ParallelIsSequential(s.right, timePartition);
      FoldAppend(Work(s.left), Work(s.right), timePartition);
    }
  }

  /** The fold is a group-by: a key's group holds, in order, exactly the changes of that day. */
  lemma {:induction false} GroupsByDay(changes: seq<File>, timePartition: Option<string>, k: Range)
    requires Boundable(changes, timePartition)
    ensures Get(FoldChunk(changes, timePartition), k) ==
            Filter(changes, c => HasTimeBounds(c, TimeColumn(timePartition)) && KeyOf(c, timePartition) == k)
    ensures k in FoldChunk(changes, timePartition) <==> exists c | c in changes :: KeyOf(c, timePartition) == k
  {
    hide KeyOf; hide HasTimeBounds;
    if changes != [] {
      var rest, last := changes[..|changes| - 1], changes[|changes| - 1];
      assert changes == rest + [last];
      GroupsByDay(rest, timePartition, k);
    }
  }
}

/** The files of a scan dealt out to the processors, and the statistics claimed for the whole. */
module Partitions {
  import opened Values
  import opened Pruning
  import opened Grouping
  import opened Sorting
  import opened Scan

  /** The statistics the files have for a column, file by file. */
  function StatsIn(columns: seq<FileColumn>, name: string): seq<Stats> {
    if columns == [] then []
    else StatsIn(columns[..|columns| - 1], name) + if columns[|columns| - 1].name == name then [columns[|columns| - 1].stats] else []
  }

  function AllColumns(files: seq<File>): seq<FileColumn> {
    if files == [] then [] else AllColumns(files[..|files| - 1]) + files[|files| - 1].columns
  }

  lemma {:induction false} AllColumnsExact(files: seq<File>, c: FileColumn)
    ensures c in AllColumns(files) <==> exists f | f in files :: c in f.columns
  {
    if files != [] {
      var rest := files[..|files| - 1];
      assert files == rest + [files[|files| - 1]];
      AllColumnsExact(rest, c);
    }
  }

  ghost predicate Merges(merged: map<string, Stats>, columns: seq<FileColumn>) {
    forall name :: MergesAt(merged, columns, name)
  }

  ghost predicate MergesAt(merged: map<string, Stats>, columns: seq<FileColumn>, name: string) {
    && (name in merged <==> StatsIn(columns, name) != [])
    && (name in merged ==> merged[name] == Hull(StatsIn(columns, name)))
  }

  lemma MergeOne(merged: map<string, Stats>, columns: seq<FileColumn>, col: FileColumn)
    requires Merges(merged, columns)
    ensures Merges(merged[col.name := if col.name in merged then Joined(merged[col.name], col.stats) else col.stats], columns + [col])
  {
    var now, more := merged[col.name := if col.name in merged then Joined(merged[col.name], col.stats) else col.stats], columns + [col];
    assert more[..|columns|] == columns;
    forall name ensures MergesAt(now, more, name) {
      assert MergesAt(merged, columns, name);
      var was := StatsIn(columns, name);
      if name == col.name {
        assert StatsIn(more, name) == was + [col.stats];
        assert (was + [col.stats])[..|was|] == was;
      } else {
        assert StatsIn(more, name) == was;
      }
    }
  }

  /** How many files in all the parts satisfy a predicate. */
  function CountAll(parts: seq<seq<File>>, p: File -> bool): nat {
    if parts == [] then 0 else CountAll(parts[..|parts| - 1], p) + Count(parts[|parts| - 1], p)
  }

  lemma CountAllLast(parts: seq<seq<File>>, part: seq<File>, p: File -> bool)
    ensures CountAll(parts + [part], p) == CountAll(parts, p) + Count(part, p)
  {
    assert (parts + [part])[..|parts|] == parts;
    hide Count;
  }

  lemma {:induction false} CountAllPut(parts: seq<seq<File>>, i: nat, f: File, p: File -> bool)
    requires i < |parts|
    ensures CountAll(parts[i := parts[i] + [f]], p) == CountAll(parts, p) + if p(f) then 1 else 0
  {
    hide CountAll; hide Count;
    var rest, last := parts[..|parts| - 1], parts[|parts| - 1];
    assert parts == rest + [last];
    CountAllLast(rest, last, p);
    if i < |rest| {
      CountAllPut(rest, i, f, p);
      CountAllLast(rest[i := rest[i] + [f]], last, p);
      assert parts[i := parts[i] + [f]] == rest[i := rest[i] + [f]] + [last];
    } else {
      CountLast(last, f, p);
      CountAllLast(rest, last + [f], p);
      assert parts[i := parts[i] + [f]] == rest + [last + [f]];
    }
  }

  lemma {:induction false} CountAllEmpty(parts: seq<seq<File>>, p: File -> bool)
    requires forall i | 0 <= i < |parts| :: parts[i] == []
    ensures CountAll(parts, p) == 0
  {
    if parts != [] {
      CountAllEmpty(parts[..|parts| - 1], p);
    }
  }

  /** The files are dealt out in turn: each lands in one part, as often as it was there. */
  ghost predicate DealtOut(files: seq<File>, parts: seq<seq<File>>) {
    forall p: File -> bool :: CountAll(parts, p) == Count(files, p)
  }

  lemma DealOne(files: seq<File>, parts: seq<seq<File>>, i: nat, f: File)
    requires DealtOut(files, parts) && i < |parts|
    ensures DealtOut(files + [f], parts[i := parts[i] + [f]])
  {
    hide Count; hide CountAll;
    forall p: File -> bool ensures CountAll(parts[i := parts[i] + [f]], p) == Count(files + [f], p) {
      CountAllPut(parts, i, f, p);
      CountLast(files, f, p);
    }
  }

  /** `partitioned_files`: the parts, the merged statistics, and the number of rows. */
  method PartitionedFiles(files: seq<File>, processors: nat)
    returns (parts: seq<seq<File>>, merged: map<string, Stats>, rows: nat)
    requires processors > 0
    ensures |parts| == processors && DealtOut(files, parts)
    ensures forall i | 0 <= i < processors :: |parts[i]| == |files| / processors + if i < |files| % processors then 1 else 0
    ensures Merges(merged, AllColumns(files)) && rows == Rows(files)
  {
    hide Merges; hide DealtOut; hide Turn;
    parts := seq(processors, _ => []);
    NothingDealt(parts);
    merged, rows := map[], 0;
    NothingMerged();
    ghost var round: nat, turn: nat := 0, 0;
    FirstTurn(processors);
    for k := 0 to |files|
      invariant |parts| == processors && DealtOut(files[..k], parts)
      invariant Turn(k, processors, round, turn)
      invariant forall i | 0 <= i < processors :: |parts[i]| == round + if i < turn then 1 else 0
      invariant Merges(merged, AllColumns(files[..k])) && rows == Rows(files[..k])
    {
      var f := files[k];
      assert files[..k + 1][..k] == files[..k] && files[..k + 1] == files[..k] + [f];
      DivMod(k, processors, round, turn);
      DealOne(files[..k], parts, k % processors, f);
      parts := parts[k % processors := parts[k % processors] + [f]];
      merged := MergeFile(merged, f.columns, AllColumns(files[..k]));
      rows := rows + f.numRows;
      NextTurn(k, processors, round, turn);
      if turn + 1 < processors { turn := turn + 1; } else { round, turn := round + 1, 0; }
    }
    DivMod(|files|, processors, round, turn);
    assert files[..|files|] == files;
  }

  /** After `k` files, so many full rounds have been dealt, and so many more files. */
  predicate Turn(k: nat, n: nat, round: nat, turn: nat) {
    turn < n && k == round * n + turn
  }

  lemma FirstTurn(n: nat)
    requires n > 0
    ensures Turn(0, n, 0, 0)
  { }

  lemma NextTurn(k: nat, n: nat, round: nat, turn: nat)
    requires Turn(k, n, round, turn)
    ensures if turn + 1 < n then Turn(k + 1, n, round, turn + 1) else Turn(k + 1, n, round + 1, 0)
  {
    assert (round + 1) * n == round * n + n;
  }

  lemma DivMod(k: nat, n: nat, round: nat, turn: nat)
    requires Turn(k, n, round, turn)
    ensures turn < n && k / n == round && k % n == turn
  {
    var q := k / n;
    assert q * n <= k < q * n + n;
    MulLess(q, round, n);
    MulLess(round, q, n);
  }

  lemma MulLess(a: nat, b: nat, n: nat)
    ensures a < b ==> a * n + n <= b * n
  {
    if a < b {
      assert a * n + n == (a + 1) * n;
    }
  }

  lemma NothingDealt(parts: seq<seq<File>>)
    requires forall i | 0 <= i < |parts| :: parts[i] == []
    ensures DealtOut([], parts)
  {
    forall p: File -> bool ensures CountAll(parts, p) == Count([], p) { CountAllEmpty(parts, p); }
  }

  lemma NothingMerged()
    ensures Merges(map[], AllColumns([]))
  { }

  method MergeFile(merged: map<string, Stats>, columns: seq<FileColumn>, ghost before: seq<FileColumn>)
    returns (now: map<string, Stats>)
    requires Merges(merged, before)
    ensures Merges(now, before + columns)
  {
    hide Merges;
    now := merged;
    assert before + columns[..0] == before;
    for k := 0 to |columns|
      invariant Merges(now, before + columns[..k])
    {
      var col := columns[k];
      MergeOne(now, before + columns[..k], col);
      assert before + columns[..k] + [col] == before + columns[..k + 1];
      if col.name in now {
        var stats := now[col.name];
        if stats.Some? && col.stats.Some? && SameKind(stats.value.min, col.stats.value.min) {
          now := now[col.name := Some(Update(stats.value, col.stats.value))];
        } else {
          now := now[col.name := stats];
        }
      } else {
        now := now[col.name := col.stats];
      }
    }
    assert columns[..|columns|] == columns;
  }

  /** The bounds the engine is told are exact hold every value the files may hold exactly when
      the first file that has the column carries no statistics for it, so that none are told,
      every such file carries them, or they leave nothing out. */
  lemma ClaimExact(files: seq<File>, merged: map<string, Stats>, name: string)
    requires Merges(merged, AllColumns(files)) && name in merged
    requires OneKind(StatsIn(AllColumns(files), name))
    ensures var stats := StatsIn(AllColumns(files), name);
            && stats != []
            && (Encloses(merged[name], stats) <==>
                stats[0].None? || Everything(merged[name]) || forall k | 0 <= k < |stats| :: stats[k].Some?)
  {
    assert MergesAt(merged, AllColumns(files), name);
    HullExact(StatsIn(AllColumns(files), name));
    hide Encloses;
  }
}

/** A manifest as an upsert-only list of files keyed by path. */
module ManifestFile {
  import opened Seqs
  import opened Grouping

  ghost predicate DistinctPaths(files: seq<File>) {
    forall i, j | 0 <= i < j < |files| :: files[i].path != files[j].path
  }

  /** The list with the change in the place of the first entry for its path, or at the end. */
  function Upsert(files: seq<File>, change: File): seq<File> {
    if files == [] then [change]
    else if files[0].path == change.path then [change] + files[1..]
    else [files[0]] + Upsert(files[1..], change)
  }

  function UpsertAll(files: seq<File>, changes: seq<File>): seq<File> {
    if changes == [] then files
    else Upsert(UpsertAll(files, changes[..|changes| - 1]), changes[|changes| - 1])
  }

  class Manifest {
    var files: seq<File>

    constructor (files: seq<File>)
      ensures this.files == files
    {
      this.files := files;
    }

    method ApplyChange(change: File)
      modifies this
      ensures files == Upsert(old(files), change)
    {
      var pos := 0;
      while pos < |files| && files[pos].path != change.path
        invariant 0 <= pos <= |files| && files == old(files)
        invariant Upsert(files, change) == files[..pos] + Upsert(files[pos..], change)
      {
        pos := pos + 1;
      }
      if pos < |files| {
        files := files[pos := change];
      } else {
        files := files + [change];
      }
    }
  }

  lemma {:induction false} UpsertPositions(files: seq<File>, change: File)
    ensures var r := Upsert(files, change);
            && |files| <= |r| <= |files| + 1
            && (exists i | 0 <= i < |r| :: r[i] == change)
            && (forall i | 0 <= i < |files| && files[i].path != change.path :: r[i] == files[i])
            && (forall i | 0 <= i < |r| :: r[i] == change || (i < |files| && r[i] == files[i]))
    ensures var r := Upsert(files, change);
            (exists i | 0 <= i < |files| :: files[i].path == change.path) <==> |r| == |files|
  {
    if files == [] {
      assert Upsert(files, change)[0] == change;
    } else if files[0].path == change.path {
      assert ([change] + files[1..])[0] == change;
    } else {
      var rest := Upsert(files[1..], change);
      UpsertPositions(files[1..], change);
      var r := Upsert(files, change);
      var i :| 0 <= i < |rest| && rest[i] == change;
      assert r[i + 1] == change;
      assert forall i | 0 < i < |r| :: r[i] == rest[i - 1];
      assert forall i | 0 < i < |files| :: files[i] == files[1..][i - 1];
      if j :| 0 <= j < |files| && files[j].path == change.path { assert files[1..][j - 1] == files[j]; }
    }
  }

  /** An upsert keeps the paths distinct, leaves every other path alone and stores the change. */
  lemma {:induction false} UpsertContents(files: seq<File>, change: File, f: File)
    requires DistinctPaths(files)
    ensures DistinctPaths(Upsert(files, change))
    ensures f in Upsert(files, change) <==> f == change || (f in files && f.path != change.path)
  {
    if files != [] && files[0].path != change.path {
      var rest := files[1..];
      UpsertContents(rest, change, f);
      var r := Upsert(rest, change);
      forall i | 0 <= i < |r| ensures r[i].path != files[0].path {
        UpsertPositions(rest, change);
      }
    }
  }

  /** The file is the last change of its path. */
  ghost predicate LastChange(changes: seq<File>, f: File) {
    exists k | 0 <= k < |changes| :: changes[k] == f && forall j | k < j < |changes| :: changes[j].path != f.path
  }

  lemma LastChangeMore(changes: seq<File>, last: File, f: File)
    ensures LastChange(changes + [last], f) <==> f == last || (f.path != last.path && LastChange(changes, f))
  {
    var all := changes + [last];
    assert all[|changes|] == last;
    assert forall k | 0 <= k < |changes| :: all[k] == changes[k];
    if LastChange(changes, f) && f.path != last.path {
      var k :| 0 <= k < |changes| && changes[k] == f && forall j | k < j < |changes| :: changes[j].path != f.path;
      assert all[k] == f && forall j | k < j < |all| :: all[j].path != f.path;
    }
    if LastChange(all, f) && f != last {
      var k :| 0 <= k < |all| && all[k] == f && forall j | k < j < |all| :: all[j].path != f.path;
      assert changes[k] == f && all[|changes|].path != f.path;
    }
  }

  /** A batch, however often it repeats a path, leaves the last change of each path it has and
      the old files of all other paths, and keeps the paths distinct. */
  lemma {:induction false} UpsertAllContents(files: seq<File>, changes: seq<File>, f: File)
    requires DistinctPaths(files)
    ensures DistinctPaths(UpsertAll(files, changes))
    ensures f in UpsertAll(files, changes) <==>
            LastChange(changes, f) || (f in files && forall c | c in changes :: c.path != f.path)
  {
    if changes != [] {
      var rest, last := changes[..|changes| - 1], changes[|changes| - 1];
      assert changes == rest + [last];
      UpsertAllContents(files, rest, f);
      UpsertContents(UpsertAll(files, rest), last, f);
      LastChangeMore(rest, last, f);
    }
  }

  /** Upserting into nothing just lists the changes, provided their paths are distinct. */
  lemma {:induction false} UpsertIntoEmpty(changes: seq<File>)
    requires DistinctPaths(changes)
    ensures UpsertAll([], changes) == changes
  {
    if changes != [] {
      var rest, last := changes[..|changes| - 1], changes[|changes| - 1];
      UpsertIntoEmpty(rest);
      UpsertFresh(rest, last);
    }
  }

  lemma {:induction false} UpsertFresh(files: seq<File>, change: File)
    requires forall i | 0 <= i < |files| :: files[i].path != change.path
    ensures Upsert(files, change) == files + [change]
  {
    if files != [] {
      UpsertFresh(files[1..], change);
    }
  }
}

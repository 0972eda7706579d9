/** The staging area of a stream: pushing rows, flushing writers, and converting arrow files to
    parquet, with file operations that succeed.

    Each method takes the steps of StagingMachine one by one and keeps the run they make as ghost
    state, so what is proved of every run holds of it: conservation of rows, deletion only after
    storage, and the rest.  What the methods add is what a caller sees, the contents of the
    directories before and after.  A job's methods are called one after the other by `Convert`;
    between jobs the stream is `Valid`. */
module Staging {
  import opened Values
  import opened MapSums
  import opened StagingMachine

  /** The file joins its group, or starts a new one. */
  function Grouped(groups: seq<Group>, front: string, k: Key): seq<Group> {
    if groups == [] then [Group(front, [k])]
    else if groups[0].front == front then [groups[0].(files := groups[0].files + [k])] + groups[1..]
    else [groups[0]] + Grouped(groups[1..], front, k)
  }

  /** What a grouping of a listing is to be. */
  ghost predicate Groups(groups: seq<Group>, listing: seq<Key>, minute: int, init: bool) {
    && NoRepeats(KeysOf(groups)) && NoRepeats(Fronts(groups))
    && (forall g, k | g in groups && k in g.files :: Front(k.name) == Some(g.front))
    && (forall k | k in KeysOf(groups) :: k in listing && InScope(k, minute, init))
    && (forall k | k in listing && InScope(k, minute, init) :: k in KeysOf(groups))
  }

  lemma {:induction false} GroupedKeys(groups: seq<Group>, front: string, k: Key)
    requires k !in KeysOf(groups) && NoRepeats(KeysOf(groups))
    ensures NoRepeats(KeysOf(Grouped(groups, front, k)))
    ensures forall x | x in KeysOf(Grouped(groups, front, k)) :: x in KeysOf(groups) || x == k
    ensures forall x | x in KeysOf(groups) :: x in KeysOf(Grouped(groups, front, k))
    ensures k in KeysOf(Grouped(groups, front, k))
  {
    if groups == [] {
      assert KeysOf([Group(front, [k])]) == [k];
    } else {
      var files, rest := groups[0].files, KeysOf(groups[1..]);
      assert KeysOf(groups) == files + rest;
      var all := Grouped(groups, front, k);
      TailNoRepeats(files, rest);
      if groups[0].front == front {
        assert all[1..] == groups[1..] && all[0].files == files + [k];
        assert KeysOf(all) == files + [k] + rest;
        InsertNoRepeats(files, k, rest);
      } else {
        GroupedKeys(groups[1..], front, k);
        assert all[1..] == Grouped(groups[1..], front, k) && all[0] == groups[0];
        AppendNoRepeats(files, rest, KeysOf(all[1..]), k);
      }
    }
  }

  lemma InsertNoRepeats(front: seq<Key>, k: Key, back: seq<Key>)
    requires NoRepeats(front + back) && k !in front + back
    ensures NoRepeats(front + [k] + back)
  {
    var was, now, n := front + back, front + [k] + back, |front|;
    forall i, j | 0 <= i < j < |now| ensures now[i] != now[j] {
      if i != n && j != n {
        var i', j' := if i < n then i else i - 1, if j < n then j else j - 1;
        assert now[i] == was[i'] && now[j] == was[j'];
      } else {
        assert now[n] == k;
        var other := if i == n then j else i;
        assert now[other] == was[if other < n then other else other - 1];
      }
    }
  }

  lemma AppendNoRepeats(front: seq<Key>, was: seq<Key>, now: seq<Key>, k: Key)
    requires NoRepeats(front + was) && NoRepeats(now) && k !in front + was
    requires forall x | x in now :: x in was || x == k
    ensures NoRepeats(front + now)
  {
    TailNoRepeats(front, was);
    forall i, j | 0 <= i < j < |front + now| ensures (front + now)[i] != (front + now)[j] {
      if j < |front| {
        assert (front + was)[i] == front[i] && (front + was)[j] == front[j];
      } else if i < |front| {
        assert now[j - |front|] in now && front[i] in front && forall x | x in front :: x in front + was;
      }
    }
  }

  lemma {:induction false} GroupedFronts(groups: seq<Group>, front: string, k: Key)
    requires NoRepeats(Fronts(groups)) && Front(k.name) == Some(front)
    requires forall g, x | g in groups && x in g.files :: Front(x.name) == Some(g.front)
    ensures NoRepeats(Fronts(Grouped(groups, front, k)))
    ensures forall f | f in Fronts(Grouped(groups, front, k)) :: f in Fronts(groups) || f == front
    ensures forall g, x | g in Grouped(groups, front, k) && x in g.files :: Front(x.name) == Some(g.front)
  {
    hide Front;
    if groups != [] {
      FirstGroup(groups);
      TailNoRepeats([groups[0].front], Fronts(groups[1..]));
      assert groups == [groups[0]] + groups[1..] && groups[0].front in [groups[0].front];
      if groups[0].front == front {
        assert Fronts(Grouped(groups, front, k)) == Fronts(groups);
      } else {
        GroupedFronts(groups[1..], front, k);
        var all := Grouped(groups, front, k);
        assert all[1..] == Grouped(groups[1..], front, k);
        FirstGroup(all);
        assert NoRepeats(Fronts(all)) by {
          var fs := Fronts(all[1..]);
          forall j | 0 <= j < |fs| ensures fs[j] != groups[0].front { assert fs[j] in fs; }
        }
      }
    }
  }

  // What each step of the machine does to the directories and the job.

  lemma CloseStep(s: State, name: string, target: string)
    requires name in s.writers && target !in s.arrows && AfterDot(target) == AfterDot(name)
    requires name !in s.arrows ==> target == name
    ensures Enabled(s, Step.Close(name, target, true))
    ensures var t := Next(s, Step.Close(name, target, true));
            && t.writers == s.writers - {name} && t.arrows == s.arrows[target := s.writers[name]]
            && t.inprocess == s.inprocess && t.parquets == s.parquets && t.job == s.job
  { }

  lemma StoreSteps(s: State, group: Group, others: seq<Group>, read: set<Key>)
    requires s.job.Converting? && s.job.phase.Ready? && s.job.todo == [group] + others
    ensures Enabled(s, Step.Write(read)) && Enabled(Next(s, Step.Write(read)), Step.Publish(true))
    ensures var t := Next(Next(s, Step.Write(read)), Step.Publish(true));
            && t.writers == s.writers && t.arrows == s.arrows && t.inprocess == s.inprocess
            && t.parquets == s.parquets[Parquet(group.front, s.job.ulid) := RowsOf(group.files, read, s.inprocess)]
            && t.job == s.job.(todo := others, phase := Deleting(group, group.files, read))
  {
    hide RowsOf;
    assert s.job.todo[1..] == others;
  }

  lemma NextGroupStep(s: State)
    requires s.job.Converting? && s.job.phase.Deleting? && s.job.phase.left == []
    ensures Enabled(s, NextGroup) && Next(s, NextGroup) == s.(job := s.job.(phase := Ready))
  { }

  lemma StartSteps(s: State, minute: int, init: bool, ulid: nat, files: seq<string>)
    requires s.job.Idle? && ulid !in s.ulids && NoRepeats(files) && forall name | name in files :: name in s.arrows
    ensures Enabled(s, Start(minute, init, ulid, files))
    ensures Next(s, Start(minute, init, ulid, files)) ==
            s.(job := Moving(minute, init, ulid, files), ulids := s.ulids + {ulid})
  { }

  lemma GatherStep(s: State, groups: seq<Group>)
    requires s.job.Moving? && s.job.pending == [] && Gathers(groups, s.inprocess, s.job.minute, s.job.init)
    ensures Enabled(s, Gather(groups))
    ensures Next(s, Gather(groups)) ==
            s.(job := Converting(s.job.minute, s.job.init, s.job.ulid, groups, Ready, true))
  { }

  lemma FinishStep(s: State)
    requires s.job.Converting? && s.job.phase.Ready? && s.job.todo == []
    ensures Enabled(s, Finish) && Next(s, Finish) == s.(job := Idle)
  { }

  lemma CloseTallies(writers: map<string, Rows>, arrows: map<string, Rows>, name: string, target: string)
    requires name in writers && target !in arrows
    ensures forall r :: Tally(writers - {name}, r) + Tally(arrows[target := writers[name]], r) ==
                        Tally(writers, r) + Tally(arrows, r)
  {
    hide Tally; hide Times;
    forall r ensures Tally(writers - {name}, r) + Tally(arrows[target := writers[name]], r) == Tally(writers, r) + Tally(arrows, r) {
      TallyMinus(writers, name, r);
      TallyPut(arrows, target, writers[name], r);
      TimesNone(r);
    }
  }

  class Staging {
    var writers: map<string, Rows>
    var arrows: map<string, Rows>
    var inprocess: map<Key, Rows>
    var parquets: map<Parquet, Rows>
    ghost var s: State
    ghost var steps: seq<Step>

    /** The directories are those of the machine after its run so far. */
    ghost predicate Mirrors()
      reads this
    {
      && Runs(Empty, steps) && s == After(Empty, steps)
      && s.writers == writers && s.arrows == arrows && s.inprocess == inprocess && s.parquets == parquets
    }

    ghost predicate Valid()
      reads this
    {
      Mirrors() && s.job.Idle?
    }

    constructor ()
      ensures Valid() && steps == [] && writers == map[] && arrows == map[]
    {
      writers, arrows, inprocess, parquets := map[], map[], map[], map[];
      s, steps := Empty, [];
    }

    ghost method Take(step: Step)
      requires Runs(Empty, steps) && s == After(Empty, steps) && Enabled(s, step)
      modifies this`s, this`steps
      ensures s == Next(old(s), step) && steps == old(steps) + [step]
      ensures Runs(Empty, steps) && s == After(Empty, steps)
    {
      s, steps := Next(s, step), steps + [step];
    }

    /** `push`: the rows go to the open writer of their file, a new one if there is none. */
    method Push(name: string, rows: Rows)
      requires Valid()
      modifies this
      ensures Valid() && steps == old(steps) + [Step.Push(name, rows)]
      ensures writers == old(writers)[name := RowsIn(old(writers), name) + rows]
      ensures arrows == old(arrows) && inprocess == old(inprocess) && parquets == old(parquets)
    {
      Take(Step.Push(name, rows));
      if name in writers {
        writers := writers[name := writers[name] + rows];
      } else {
        assert [] + rows == rows;
        writers := writers[name := rows];
      }
    }

    /** `Drop` of a writer: finish the file and give it its name. */
    method CloseWriter(name: string, target: string)
      requires Mirrors() && name in writers && target !in arrows && AfterDot(target) == AfterDot(name)
      requires name !in arrows ==> target == name
      modifies this
      ensures Mirrors() && s.job == old(s.job)
      ensures writers == old(writers) - {name} && arrows == old(arrows)[target := old(writers)[name]]
      ensures inprocess == old(inprocess) && parquets == old(parquets)
    {
      CloseStep(s, name, target);
      hide Runs; hide After; hide Next; hide Enabled; hide AfterDot;
      Take(Step.Close(name, target, true));
      arrows := arrows[target := writers[name]];
      writers := writers - {name};
    }

    /** `flush`: every writer is closed unless it is of the current minute and nothing forces it.
        A finished file takes its own name, or an unused one that agrees with it after the first
        dot if that is taken. */
    method Flush(forced: bool, current: set<string>, unused: (string, set<string>) -> string)
      requires Valid()
      requires forall name, taken :: unused(name, taken) !in taken && AfterDot(unused(name, taken)) == AfterDot(name)
      modifies this
      ensures Valid() && inprocess == old(inprocess) && parquets == old(parquets)
      ensures forall name :: name in writers <==> name in old(writers) && !forced && name in current
      ensures forall name | name in writers :: writers[name] == old(writers)[name]
      ensures forall name | name in old(arrows) :: name in arrows && arrows[name] == old(arrows)[name]
      ensures forall r :: Tally(writers, r) + Tally(arrows, r) == Tally(old(writers), r) + Tally(old(arrows), r)
    {
      hide Mirrors; hide Tally; hide AfterDot;
      ghost var writers0, arrows0 := writers, arrows;
      var todo := set name | name in writers && (forced || name !in current);
      while todo != {}
        invariant Mirrors() && s.job.Idle? && inprocess == old(inprocess) && parquets == old(parquets)
        invariant todo <= writers.Keys
        invariant forall name :: name in writers <==> name in todo || (name in writers0 && !forced && name in current)
        invariant forall name | name in todo :: name in writers0 && (forced || name !in current)
        invariant forall name | name in writers :: writers[name] == writers0[name]
        invariant forall name | name in arrows0 :: name in arrows && arrows[name] == arrows0[name]
        invariant forall r :: Tally(writers, r) + Tally(arrows, r) == Tally(writers0, r) + Tally(arrows0, r)
        decreases |todo|
      {
        var name :| name in todo;
        var target := if name in arrows then unused(name, arrows.Keys) else name;
        CloseTallies(writers, arrows, name, target);
        CloseWriter(name, target);
        todo := todo - {name};
      }
    }

    method MoveOne(name: string, ghost rest: seq<string>, minute: int)
      requires Mirrors() && s.job.Moving? && s.job.minute == minute && s.job.pending == [name] + rest
      modifies this
      ensures Mirrors() && s.job == old(s.job).(pending := rest)
      ensures writers == old(writers) && parquets == old(parquets)
      ensures arrows == old(arrows) - {name}
      ensures inprocess == if name in old(arrows) then old(inprocess)[Key(minute, name) := old(arrows)[name]] else old(inprocess)
    {
      assert ([name] + rest)[1..] == rest && ([name] + rest)[0] == name;
      hide Runs; hide After; hide Next; hide Enabled;
      Take(Move(true));
      if name in arrows {
        inprocess := inprocess[Key(minute, name) := arrows[name]];
        arrows := arrows - {name};
      } else {
        assert arrows - {name} == arrows;
      }
    }

    /** `move_arrow_files` */
    method MoveArrowFiles(files: seq<string>, minute: int)
      requires Mirrors() && s.job.Moving? && s.job.minute == minute && s.job.pending == files
      modifies this
      ensures Mirrors() && s.job == old(s.job).(pending := [])
      ensures writers == old(writers) && parquets == old(parquets)
      ensures forall name :: name in arrows <==> name in old(arrows) && name !in files
      ensures forall name | name in arrows :: arrows[name] == old(arrows)[name]
      ensures forall k | k in old(inprocess) :: k in inprocess
      ensures forall name | name in files && name in old(arrows) :: Key(minute, name) in inprocess
      ensures forall k | k in inprocess :: k in old(inprocess) || (k.minute == minute && k.name in files)
    {
      hide Mirrors;
      ghost var arrows0, inprocess0, job0 := arrows, inprocess, s.job;
      for i := 0 to |files|
        invariant Mirrors() && s.job == job0.(pending := files[i..])
        invariant writers == old(writers) && parquets == old(parquets)
        invariant forall name :: name in arrows <==> name in arrows0 && name !in files[..i]
        invariant forall name | name in arrows :: arrows[name] == arrows0[name]
        invariant forall k | k in inprocess0 :: k in inprocess
        invariant forall name | name in files[..i] && name in arrows0 :: Key(minute, name) in inprocess
        invariant forall k | k in inprocess :: k in inprocess0 || (k.minute == minute && k.name in files)
      {
        assert files[i..] == [files[i]] + files[i + 1..] && files[..i + 1] == files[..i] + [files[i]];
        MoveOne(files[i], files[i + 1..], minute);
      }
    }

    /** `group_single_inprocess_arrow_files`, or `group_inprocess_arrow_files` for an init run:
        the convertible files, by the parquet they go into. */
    method GroupArrowFiles(minute: int, init: bool) returns (groups: seq<Group>)
      ensures Gathers(groups, inprocess, minute, init)
    {
      groups := [];
      var listing: seq<Key> := [];
      var rest := inprocess.Keys;
      while rest != {}
        invariant rest <= inprocess.Keys && forall k | k in inprocess :: k in rest <==> k !in listing
        invariant forall k | k in listing :: k in inprocess
        invariant Groups(groups, listing, minute, init)
        decreases |rest|
      {
        var k :| k in rest;
        if (init || k.minute == minute) && Front(k.name).Some? {
          GroupedKeys(groups, Front(k.name).value, k);
          GroupedFronts(groups, Front(k.name).value, k);
          groups := Grouped(groups, Front(k.name).value, k);
        }
        listing := listing + [k];
        rest := rest - {k};
      }
    }

    method StoreParquet(group: Group, ghost others: seq<Group>, read: set<Key>, ulid: nat)
      requires Mirrors() && s.job.Converting? && s.job.ulid == ulid
      requires s.job.phase.Ready? && s.job.todo == [group] + others
      modifies this
      ensures Mirrors() && s.job == old(s.job).(todo := others, phase := Deleting(group, group.files, read))
      ensures writers == old(writers) && arrows == old(arrows) && inprocess == old(inprocess)
      ensures parquets == old(parquets)[Parquet(group.front, ulid) := RowsOf(group.files, read, inprocess)]
    {
      StoreSteps(s, group, others, read);
      hide Runs; hide After; hide Next; hide Enabled; hide RowsOf;
      Take(Step.Write(read));
      Take(Step.Publish(true));
      parquets := parquets[Parquet(group.front, ulid) := RowsOf(group.files, read, inprocess)];
    }

    method DeleteOne(k: Key, ghost rest: seq<Key>)
      requires Mirrors() && s.job.Converting? && s.job.phase.Deleting? && s.job.phase.left == [k] + rest
      modifies this
      ensures Mirrors() && s.job == old(s.job).(phase := old(s.job).phase.(left := rest))
      ensures writers == old(writers) && arrows == old(arrows) && parquets == old(parquets)
      ensures inprocess == old(inprocess) - {k}
    {
      assert ([k] + rest)[1..] == rest && ([k] + rest)[0] == k;
      hide Runs; hide After; hide Next; hide Enabled;
      Take(Step.Delete(true));
      inprocess := inprocess - {k};
    }

    /** One parquet file: written to a part file, put in place, and its arrow files deleted. */
    method ConvertGroup(group: Group, ghost others: seq<Group>, ulid: nat)
      requires Mirrors() && s.job.Converting? && s.job.ulid == ulid
      requires s.job.phase.Ready? && s.job.todo == [group] + others
      modifies this
      ensures Mirrors() && s.job == old(s.job).(todo := others)
      ensures writers == old(writers) && arrows == old(arrows)
      ensures forall k :: k in inprocess <==> k in old(inprocess) && k !in group.files
      ensures forall k | k in inprocess :: inprocess[k] == old(inprocess)[k]
      ensures var read := set k | k in group.files;
              parquets == old(parquets)[Parquet(group.front, ulid) := RowsOf(group.files, read, old(inprocess))]
    {
      hide RowsOf; hide Mirrors;
      var files := group.files;
      var read := set k | k in files;
      StoreParquet(group, others, read, ulid);
      ghost var inprocess0, parquets0, job0 := inprocess, parquets, s.job;
      for i := 0 to |files|
        invariant Mirrors() && writers == old(writers) && arrows == old(arrows) && parquets == parquets0
        invariant s.job == job0.(phase := Deleting(group, files[i..], read))
        invariant forall k :: k in inprocess <==> k in inprocess0 && k !in files[..i]
        invariant forall k | k in inprocess :: inprocess[k] == inprocess0[k]
      {
        assert files[i..] == [files[i]] + files[i + 1..] && files[..i + 1] == files[..i] + [files[i]];
        DeleteOne(files[i], files[i + 1..]);
      }
      EndGroup();
    }

    ghost method EndGroup()
      requires Mirrors() && s.job.Converting? && s.job.phase.Deleting? && s.job.phase.left == []
      modifies this`s, this`steps
      ensures Mirrors() && s.job == old(s.job).(phase := Ready)
    {
      NextGroupStep(s);
      hide Runs; hide After; hide Next; hide Enabled;
      Take(Step.NextGroup);
    }

    /** `convert_disk_files_to_parquet`: the arrow files of past minutes, or all of them at
        shutdown, move to the minute's processing directory; then its files, or those of every
        directory in an init run, become parquet. */
    method Convert(minute: int, past: set<string>, init: bool, shutdown: bool, ulid: nat)
      requires Valid() && ulid !in s.ulids
      modifies this
      ensures Valid() && writers == old(writers)
      ensures forall name :: name in arrows <==> name in old(arrows) && !shutdown && name !in past
      ensures forall name | name in arrows :: arrows[name] == old(arrows)[name]
      ensures forall k | k in inprocess :: !InScope(k, minute, init)
      ensures forall k | k in inprocess :: k in old(inprocess) || (k.minute == minute && k.name in old(arrows))
      ensures forall p | p in old(parquets) :: p in parquets && parquets[p] == old(parquets)[p]
    {
      OldParquets();
      var groups := ArrowFilesGroupedExcludeTime(minute, past, init, shutdown, ulid);
      hide Mirrors; hide InScope;
      ConvertGroups(groups, ulid);
      End();
    }

    method ArrowFilesGroupedExcludeTime(minute: int, past: set<string>, init: bool, shutdown: bool, ulid: nat)
      returns (groups: seq<Group>)
      requires Valid() && ulid !in s.ulids
      modifies this
      ensures Mirrors() && s.job == Converting(minute, init, ulid, groups, Ready, true)
      ensures writers == old(writers) && parquets == old(parquets)
      ensures forall name :: name in arrows <==> name in old(arrows) && !shutdown && name !in past
      ensures forall name | name in arrows :: arrows[name] == old(arrows)[name]
      ensures forall k | k in inprocess :: k in old(inprocess) || (k.minute == minute && k.name in old(arrows))
      ensures forall k | k in inprocess && InScope(k, minute, init) :: k in KeysOf(groups)
    {
      ghost var arrows0 := arrows;
      var names := set name | name in arrows && (shutdown || name in past);
      var eligible := ListNames(names);
      Begin(minute, init, ulid, eligible);
      hide *;
      MoveArrowFiles(eligible, minute);
      groups := GroupArrowFiles(minute, init);
      Arrange(groups);
    }

    /** The loop over the groups. */
    method ConvertGroups(groups: seq<Group>, ulid: nat)
      requires Mirrors() && s.job.Converting? && s.job.ulid == ulid && s.job.phase.Ready? && s.job.todo == groups
      requires forall p | p in parquets :: p.ulid != ulid
      modifies this
      ensures Mirrors() && s.job == old(s.job).(todo := [])
      ensures writers == old(writers) && arrows == old(arrows)
      ensures forall p | p in old(parquets) :: p in parquets && parquets[p] == old(parquets)[p]
      ensures forall k | k in inprocess :: k in old(inprocess) && k !in KeysOf(groups)
    {
      assert KeysOf([]) == [];
      hide *;
      ghost var inprocess0, parquets0, job0 := inprocess, parquets, s.job;
      assert groups[0..] == groups;
      for i := 0 to |groups|
        invariant Mirrors() && writers == old(writers) && arrows == old(arrows)
        invariant s.job == job0.(todo := groups[i..])
        invariant forall p | p in parquets0 :: p in parquets && parquets[p] == parquets0[p]
        invariant forall k | k in inprocess :: k in inprocess0 && (k in KeysOf(groups) ==> k in KeysOf(groups[i..]))
      {
        assert groups[i..] == [groups[i]] + groups[i + 1..];
        ConvertNext(groups[i], groups[i + 1..], ulid);
      }
      assert groups[|groups|..] == [];
    }

    method ConvertNext(group: Group, ghost others: seq<Group>, ulid: nat)
      requires Mirrors() && s.job.Converting? && s.job.ulid == ulid
      requires s.job.phase.Ready? && s.job.todo == [group] + others
      modifies this
      ensures Mirrors() && s.job == old(s.job).(todo := others)
      ensures writers == old(writers) && arrows == old(arrows)
      ensures forall p | p in old(parquets) && p.ulid != ulid :: p in parquets && parquets[p] == old(parquets)[p]
      ensures forall k | k in inprocess :: k in old(inprocess)
      ensures forall k | k in inprocess && k in KeysOf([group] + others) :: k in KeysOf(others)
    {
      hide *;
      FirstGroup([group] + others);
      assert ([group] + others)[1..] == others;
      ConvertGroup(group, others, ulid);
    }

    lemma OldParquets()
      requires Valid()
      ensures forall p | p in parquets :: p.ulid in s.ulids
    {
      JobInvariant(steps);
    }

    ghost method Begin(minute: int, init: bool, ulid: nat, files: seq<string>)
      requires Valid() && ulid !in s.ulids && NoRepeats(files) && forall name | name in files :: name in arrows
      modifies this`s, this`steps
      ensures Mirrors() && s.job == Moving(minute, init, ulid, files)
    {
      StartSteps(s, minute, init, ulid, files);
      hide Runs; hide After; hide Next; hide Enabled;
      Take(Start(minute, init, ulid, files));
    }

    ghost method Arrange(groups: seq<Group>)
      requires Mirrors() && s.job.Moving? && s.job.pending == []
      requires Gathers(groups, inprocess, s.job.minute, s.job.init)
      modifies this`s, this`steps
      ensures Mirrors()
      ensures s.job == Converting(old(s.job.minute), old(s.job.init), old(s.job.ulid), groups, Ready, true)
    {
      GatherStep(s, groups);
      hide Runs; hide After; hide Next; hide Enabled; hide Gathers;
      Take(Gather(groups));
    }

    ghost method End()
      requires Mirrors() && s.job.Converting? && s.job.phase.Ready? && s.job.todo == []
      modifies this`s, this`steps
      ensures Valid()
    {
      FinishStep(s);
      hide Runs; hide After; hide Next; hide Enabled;
      Take(Finish);
    }
  }

  method ListNames(names: set<string>) returns (list: seq<string>)
    ensures NoRepeats(list)
    ensures forall name | name in list :: name in names
    ensures forall name | name in names :: name in list
  {
    list := [];
    var rest := names;
    while rest != {}
      invariant rest <= names && NoRepeats(list)
      invariant forall name | name in list :: name in names && name !in rest
      invariant forall name | name in names :: name in rest || name in list
      decreases |rest|
    {
      var name :| name in rest;
      list := list + [name];
      rest := rest - {name};
    }
  }
}

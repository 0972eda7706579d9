/** Staging as a machine: rows go from open writers to arrow files, to a processing directory,
    to parquet.  Pushes and closings interleave with the single conversion job, whose every file
    operation is a step of its own, may fail, and may be cut off by a crash. */
module StagingMachine {
  import opened Values
  import opened MapSums

  type Rows = seq<nat>

  /** An arrow file in the processing directory of a minute. */
  datatype Key = Key(minute: int, name: string)

  datatype Parquet = Parquet(front: string, ulid: nat)

  /** The arrow files that become one parquet file. */
  datatype Group = Group(front: string, files: seq<Key>)

  /** Where the job is: between groups; a group's part file written from the files in `read`; or
      its parquet in place, with the files in `left` still to delete. */
  datatype Phase =
    | Ready
    | Written(group: Group, rows: Rows, read: set<Key>)
    | Deleting(group: Group, left: seq<Key>, read: set<Key>)

  datatype Job =
    | Idle
    | Moving(minute: int, init: bool, ulid: nat, pending: seq<string>)
    | Converting(minute: int, init: bool, ulid: nat, todo: seq<Group>, phase: Phase, smooth: bool)

  /** How often each row occurs. */
  type Counts = nat -> nat

  /** The directories, and three tallies: of rows pushed, of rows no file holds any more, and of
      rows that a crash or a failed deletion left held twice. */
  datatype State = State(writers: map<string, Rows>, arrows: map<string, Rows>, inprocess: map<Key, Rows>,
                         parquets: map<Parquet, Rows>, job: Job, ulids: set<nat>,
                         pushed: Counts, lost: Counts, twice: Counts)

  datatype Step =
    | Push(name: string, rows: Rows)
    | Close(name: string, target: string, ok: bool)
    | Start(minute: int, init: bool, ulid: nat, eligible: seq<string>)
    | Move(ok: bool)
    | Gather(groups: seq<Group>)
    | Write(read: set<Key>)
    | Skip
    | Publish(ok: bool)
    | Delete(ok: bool)
    | NextGroup
    | Finish
    | Abort
    | Crash

  // ------------------------------------------------------------------- parquet names

  /** What follows the first dot of a file's stem. */
  function AfterDot(stem: string): Option<string> {
    if stem == "" then None else if stem[0] == '.' then Some(stem[1..]) else AfterDot(stem[1..])
  }

  /** The part of an arrow file's name that goes into its parquet's. */
  function Front(stem: string): Option<string> {
    var front := AfterDot(stem);
    if front.Some? && '.' in front.value then front else None
  }

  /** `arrow_path_to_parquet` */
  function ParquetName(stem: string, random: string): Option<string> {
    var front := Front(stem);
    if front.None? then None else Some(front.value + "." + random + ".parquet")
  }

  lemma {:induction false} AfterDotOf(head: string, rest: string)
    requires '.' !in head
    ensures AfterDot(head + "." + rest) == Some(rest)
  {
    var stem := head + "." + rest;
    if head != "" {
      assert head[0] in head && stem[1..] == head[1..] + "." + rest;
      AfterDotOf(head[1..], rest);
    } else {
      assert stem[1..] == rest;
    }
  }

  lemma {:induction false} HeadOf(stem: string) returns (head: string)
    requires AfterDot(stem).Some?
    ensures '.' !in head && stem == head + "." + AfterDot(stem).value
  {
    head := "";
    if stem[0] != '.' {
      head := HeadOf(stem[1..]);
      head := [stem[0]] + head;
      assert stem == [stem[0]] + stem[1..];
    }
  }

  /** What goes into the parquet's name is all that follows the first dot, if that holds another. */
  lemma FrontExact(stem: string, front: string)
    ensures Front(stem) == Some(front) <==>
            '.' in front && exists head: string | '.' !in head :: stem == head + "." + front
  {
    if head: string :| '.' !in head && stem == head + "." + front {
      AfterDotOf(head, front);
    }
    if Front(stem) == Some(front) {
      var head := HeadOf(stem);
      assert '.' !in head && stem == head + "." + front;
    }
  }

  /** Under one random string, two arrow files go into the same parquet exactly when all that
      follows the first dots of their names, date, hour, minute and partition values, agrees. */
  lemma SameParquetExact(head: string, x: string, other: string, y: string, random: string)
    requires '.' !in head && '.' !in other && '.' in x && '.' in y
    ensures var a, b := ParquetName(head + "." + x, random), ParquetName(other + "." + y, random);
            a.Some? && b.Some? && (a == b <==> x == y)
  {
    AfterDotOf(head, x);
    AfterDotOf(other, y);
    var tail := "." + random + ".parquet";
    assert x + "." + random + ".parquet" == x + tail && y + "." + random + ".parquet" == y + tail;
    if x + tail == y + tail {
      assert (x + tail)[..|x|] == x && (y + tail)[..|y|] == y;
    }
  }

  // ----------------------------------------------------------------------------- steps

  function RowsIn<K>(m: map<K, Rows>, k: K): Rows {
    if k in m then m[k] else []
  }

  /** The rows of the files that could be read, one file after the other. */
  function RowsOf(files: seq<Key>, read: set<Key>, inprocess: map<Key, Rows>): Rows {
    if files == [] then []
    else (if files[0] in read then RowsIn(inprocess, files[0]) else []) + RowsOf(files[1..], read, inprocess)
  }

  predicate InScope(k: Key, minute: int, init: bool) {
    (init || k.minute == minute) && Front(k.name).Some?
  }

  function KeysOf(groups: seq<Group>): seq<Key> {
    if groups == [] then [] else groups[0].files + KeysOf(groups[1..])
  }

  ghost predicate NoRepeats<T>(xs: seq<T>) {
    forall i, j | 0 <= i < j < |xs| :: xs[i] != xs[j]
  }

  function Fronts(groups: seq<Group>): seq<string> {
    seq(|groups|, i requires 0 <= i < |groups| => groups[i].front)
  }

  /** A grouping by parquet name of what the job is to convert. */
  ghost predicate Gathers(groups: seq<Group>, inprocess: map<Key, Rows>, minute: int, init: bool) {
    && NoRepeats(KeysOf(groups)) && NoRepeats(Fronts(groups))
    && (forall g, k | g in groups && k in g.files :: Front(k.name) == Some(g.front))
    && (forall k | k in KeysOf(groups) :: k in inprocess && InScope(k, minute, init))
    && (forall k | k in inprocess && InScope(k, minute, init) :: k in KeysOf(groups))
  }

  ghost predicate Enabled(s: State, step: Step) {
    match step
    case Push(_, _) => true
    case Close(name, target, ok) =>
      && name in s.writers
      && (ok ==> target !in s.arrows && AfterDot(target) == AfterDot(name) && (name !in s.arrows ==> target == name))
    case Start(_, _, ulid, eligible) =>
      s.job.Idle? && ulid !in s.ulids && NoRepeats(eligible) && forall name | name in eligible :: name in s.arrows
    case Move(_) => s.job.Moving? && s.job.pending != []
    case Gather(groups) =>
      s.job.Moving? && s.job.pending == [] && Gathers(groups, s.inprocess, s.job.minute, s.job.init)
    case Write(_) => s.job.Converting? && s.job.phase.Ready? && s.job.todo != []
    case Skip => s.job.Converting? && s.job.phase.Ready? && s.job.todo != []
    case Publish(_) => s.job.Converting? && s.job.phase.Written?
    case Delete(_) => s.job.Converting? && s.job.phase.Deleting? && s.job.phase.left != []
    case NextGroup => s.job.Converting? && s.job.phase.Deleting? && s.job.phase.left == []
    case Finish => s.job.Converting? && s.job.phase.Ready? && s.job.todo == []
    case Abort => !s.job.Idle? && (s.job.Converting? ==> !s.job.phase.Deleting?)
    case Crash => true
  }

  /** Rows in files that still await deletion though their parquet is in place. */
  function Doubled(s: State): Rows {
    if s.job.Converting? && s.job.phase.Deleting? then RowsOf(s.job.phase.left, s.job.phase.read, s.inprocess) else []
  }

  function Plus(c: Counts, rows: Rows): Counts {
    r => c(r) + Times(rows, r)
  }

  ghost function Next(s: State, step: Step): State
    requires Enabled(s, step)
  {
    match step
    case Push(name, rows) =>
      s.(writers := s.writers[name := RowsIn(s.writers, name) + rows], pushed := Plus(s.pushed, rows))
    case Close(name, target, ok) =>
      if ok then s.(writers := s.writers - {name}, arrows := s.arrows[target := s.writers[name]])
      else s.(writers := s.writers - {name}, lost := Plus(s.lost, s.writers[name]))
    case Start(minute, init, ulid, eligible) =>
      s.(job := Moving(minute, init, ulid, eligible), ulids := s.ulids + {ulid})
    case Move(ok) =>
      var name := s.job.pending[0];
      var moved := s.(job := s.job.(pending := s.job.pending[1..]));
      if !ok || name !in s.arrows then moved
      else
        var key := Key(s.job.minute, name);
        moved.(arrows := s.arrows - {name}, inprocess := s.inprocess[key := s.arrows[name]],
               lost := Plus(s.lost, RowsIn(s.inprocess, key)))
    case Gather(groups) =>
      s.(job := Converting(s.job.minute, s.job.init, s.job.ulid, groups, Ready, true))
    case Write(read) =>
      var group := s.job.todo[0];
      s.(job := s.job.(todo := s.job.todo[1..], phase := Written(group, RowsOf(group.files, read, s.inprocess), read)))
    case Skip => s.(job := s.job.(todo := s.job.todo[1..], smooth := false))
    case Publish(ok) =>
      if !ok then s.(job := s.job.(phase := Ready, smooth := false))
      else
        var group := s.job.phase.group;
        s.(parquets := s.parquets[Parquet(group.front, s.job.ulid) := s.job.phase.rows],
           job := s.job.(phase := Deleting(group, group.files, s.job.phase.read)))
    case Delete(ok) =>
      var k := s.job.phase.left[0];
      var rest := s.job.(phase := s.job.phase.(left := s.job.phase.left[1..]), smooth := s.job.smooth && ok);
      if ok then
        s.(inprocess := s.inprocess - {k}, job := rest,
           lost := Plus(s.lost, if k in s.job.phase.read then [] else RowsIn(s.inprocess, k)))
      else
        s.(job := rest, twice := Plus(s.twice, if k in s.job.phase.read then RowsIn(s.inprocess, k) else []))
    case NextGroup => s.(job := s.job.(phase := Ready))
    case Finish => s.(job := Idle)
    case Abort => s.(job := Idle)
    case Crash =>
      s.(writers := map[], job := Idle, lost := r => s.lost(r) + Tally(s.writers, r), twice := Plus(s.twice, Doubled(s)))
  }

  const Empty := State(map[], map[], map[], map[], Idle, {}, _ => 0, _ => 0, _ => 0)

  ghost predicate Runs(s: State, steps: seq<Step>)
    decreases |steps|, 0
  {
    steps == [] ||
    (Runs(s, steps[..|steps| - 1]) && Enabled(After(s, steps[..|steps| - 1]), steps[|steps| - 1]))
  }

  ghost function After(s: State, steps: seq<Step>): State
    requires Runs(s, steps)
    decreases |steps|, 1
  {
    if steps == [] then s else Next(After(s, steps[..|steps| - 1]), steps[|steps| - 1])
  }

  // --------------------------------------------------------------------------- counting

  function Times(rows: Rows, r: nat): nat {
    if rows == [] then 0 else Times(rows[..|rows| - 1], r) + if rows[|rows| - 1] == r then 1 else 0
  }

  lemma {:induction false} TimesAppend(xs: Rows, ys: Rows, r: nat)
    ensures Times(xs + ys, r) == Times(xs, r) + Times(ys, r)
  {
    if ys == [] {
      assert xs + ys == xs;
    } else {
      assert (xs + ys)[..|xs + ys| - 1] == xs + ys[..|ys| - 1];
      TimesAppend(xs, ys[..|ys| - 1], r);
    }
  }

  lemma {:induction false} TimesPositive(rows: Rows, r: nat)
    ensures Times(rows, r) > 0 <==> r in rows
  {
    if rows != [] {
      TimesPositive(rows[..|rows| - 1], r);
      assert rows == rows[..|rows| - 1] + [rows[|rows| - 1]];
    }
  }

  ghost function PerFile<K>(m: map<K, Rows>, r: nat): map<K, nat> {
    map k | k in m :: Times(m[k], r)
  }

  /** How often a directory's files hold a row. */
  ghost function Tally<K>(m: map<K, Rows>, r: nat): nat {
    MapSum(PerFile(m, r))
  }

  lemma TallyMinus<K>(m: map<K, Rows>, k: K, r: nat)
    ensures Tally(m, r) == Times(RowsIn(m, k), r) + Tally(m - {k}, r)
  {
    if k in m {
      MapSumMinus(PerFile(m, r), k);
      assert PerFile(m, r) - {k} == PerFile(m - {k}, r);
    } else {
      assert m - {k} == m;
    }
  }

  lemma TallyPut<K>(m: map<K, Rows>, k: K, rows: Rows, r: nat)
    ensures Tally(m[k := rows], r) == Tally(m, r) - Times(RowsIn(m, k), r) + Times(rows, r)
  {
    TallyMinus(m[k := rows], k, r);
    TallyMinus(m, k, r);
    assert m[k := rows] - {k} == m - {k};
  }

  /** The files of all kinds. */
  ghost function Held(s: State, r: nat): nat {
    Tally(s.writers, r) + Tally(s.arrows, r) + Tally(s.inprocess, r) + Tally(s.parquets, r)
  }

  // ------------------------------------------------------------------ the job's invariant

  /** What the job still has to delete. */
  function PendingKeys(job: Job): seq<Key>
    requires job.Converting?
  {
    match job.phase
    case Ready => KeysOf(job.todo)
    case Written(group, _, _) => group.files + KeysOf(job.todo)
    case Deleting(_, left, _) => left + KeysOf(job.todo)
  }

  ghost predicate Stored(parquet: Rows, k: Key, inprocess: map<Key, Rows>) {
    forall row | row in RowsIn(inprocess, k) :: row in parquet
  }

  ghost predicate PhaseOk(s: State)
    requires s.job.Converting?
  {
    match s.job.phase
    case Ready => true
    case Written(group, rows, read) =>
      && rows == RowsOf(group.files, read, s.inprocess)
      && Parquet(group.front, s.job.ulid) !in s.parquets && group.front !in Fronts(s.job.todo)
    case Deleting(group, left, read) =>
      && Parquet(group.front, s.job.ulid) in s.parquets && group.front !in Fronts(s.job.todo)
      && forall k | k in left && k in read :: Stored(s.parquets[Parquet(group.front, s.job.ulid)], k, s.inprocess)
  }

  ghost predicate JobOk(s: State) {
    && (forall p | p in s.parquets :: p.ulid in s.ulids)
    && (s.job.Moving? ==> s.job.ulid in s.ulids && forall p | p in s.parquets :: p.ulid != s.job.ulid)
    && (s.job.Converting? ==>
          && s.job.ulid in s.ulids && PhaseOk(s)
          && NoRepeats(Fronts(s.job.todo)) && NoRepeats(PendingKeys(s.job))
          && (forall k | k in PendingKeys(s.job) :: k in s.inprocess)
          && (forall front | front in Fronts(s.job.todo) :: Parquet(front, s.job.ulid) !in s.parquets)
          && (s.job.smooth ==>
                forall k | k in s.inprocess && InScope(k, s.job.minute, s.job.init) :: k in PendingKeys(s.job)))
  }

  lemma TailNoRepeats<T>(front: seq<T>, xs: seq<T>)
    requires NoRepeats(front + xs)
    ensures NoRepeats(xs) && forall x | x in xs :: x !in front
  {
    var all := front + xs;
    forall i, j | 0 <= i < j < |xs| ensures xs[i] != xs[j] {
      assert all[|front| + i] == xs[i] && all[|front| + j] == xs[j];
    }
    forall x | x in xs ensures x !in front {
      var j :| 0 <= j < |xs| && xs[j] == x;
      assert all[|front| + j] == x;
      forall i | 0 <= i < |front| ensures front[i] != x { assert all[i] == front[i]; }
    }
  }

  lemma {:induction false} RowsOfStored(files: seq<Key>, read: set<Key>, inprocess: map<Key, Rows>)
    ensures forall k | k in files && k in read :: Stored(RowsOf(files, read, inprocess), k, inprocess)
  {
    if files != [] {
      RowsOfStored(files[1..], read, inprocess);
      assert files == [files[0]] + files[1..];
    }
  }

  lemma {:induction false} RowsOfSame(files: seq<Key>, read: set<Key>, m: map<Key, Rows>, n: map<Key, Rows>)
    requires forall k | k in files :: RowsIn(m, k) == RowsIn(n, k)
    ensures RowsOf(files, read, m) == RowsOf(files, read, n)
  {
    if files != [] {
      assert files[0] in files && forall k | k in files[1..] :: k in files;
      RowsOfSame(files[1..], read, m, n);
    }
  }

  lemma FirstGroup(todo: seq<Group>)
    requires todo != []
    ensures KeysOf(todo) == todo[0].files + KeysOf(todo[1..])
    ensures Fronts(todo) == [todo[0].front] + Fronts(todo[1..])
  { }

  lemma PublishOk(s: State, ok: bool)
    requires JobOk(s) && Enabled(s, Publish(ok))
    ensures JobOk(Next(s, Publish(ok)))
  {
    TailNoRepeats(s.job.phase.group.files, KeysOf(s.job.todo));
    RowsOfStored(s.job.phase.group.files, s.job.phase.read, s.inprocess);
    hide RowsOf; hide KeysOf;
  }

  lemma DeleteOk(s: State, ok: bool)
    requires JobOk(s) && Enabled(s, Delete(ok))
    ensures JobOk(Next(s, Delete(ok)))
  {
    var left, keys := s.job.phase.left, KeysOf(s.job.todo);
    assert left + keys == [left[0]] + (left[1..] + keys);
    TailNoRepeats([left[0]], left[1..] + keys);
    hide RowsOf; hide KeysOf;
    assert left[0] in [left[0]];
  }

  lemma WriteOk(s: State, step: Step)
    requires JobOk(s) && Enabled(s, step) && (step.Write? || step.Skip?)
    ensures JobOk(Next(s, step))
  {
    FirstGroup(s.job.todo);
    TailNoRepeats(s.job.todo[0].files, KeysOf(s.job.todo[1..]));
    TailNoRepeats([s.job.todo[0].front], Fronts(s.job.todo[1..]));
    hide RowsOf; hide KeysOf; hide Fronts; hide NoRepeats;
    assert s.job.todo[0].front in [s.job.todo[0].front];
  }

  lemma GatherOk(s: State, groups: seq<Group>)
    requires JobOk(s) && Enabled(s, Gather(groups))
    ensures JobOk(Next(s, Gather(groups)))
  {
    hide KeysOf; hide NoRepeats; hide RowsOf; hide Front;
  }

  /** Steps of the writers leave the job alone. */
  lemma WritersOk(s: State, step: Step)
    requires JobOk(s) && Enabled(s, step) && (step.Push? || step.Close?)
    ensures JobOk(Next(s, step))
  {
    hide JobOk; hide AfterDot; hide Plus;
    var t := Next(s, step);
    assert t.job == s.job && t.inprocess == s.inprocess && t.parquets == s.parquets && t.ulids == s.ulids;
    SameJobOk(s, t);
  }

  lemma SameJobOk(s: State, t: State)
    requires JobOk(s) && t.job == s.job && t.inprocess == s.inprocess && t.parquets == s.parquets && t.ulids == s.ulids
    ensures JobOk(t)
  {
    hide KeysOf; hide NoRepeats; hide RowsOf; hide Stored; hide InScope; hide Fronts;
  }

  lemma BetweenGroupsOk(s: State, step: Step)
    requires JobOk(s) && Enabled(s, step)
    requires step.Start? || step.Move? || step.NextGroup? || step.Finish? || step.Abort? || step.Crash?
    ensures JobOk(Next(s, step))
  {
    if step.NextGroup? { assert [] + KeysOf(s.job.todo) == KeysOf(s.job.todo); }
    hide KeysOf; hide NoRepeats; hide RowsOf; hide Stored; hide Tally; hide Plus; hide Times; hide InScope; hide Fronts;
  }

  lemma StepOk(s: State, step: Step)
    requires JobOk(s) && Enabled(s, step)
    ensures JobOk(Next(s, step))
  {
    hide *;
    match step
    case Publish(ok) => PublishOk(s, ok);
    case Delete(ok) => DeleteOk(s, ok);
    case Write(_) => WriteOk(s, step);
    case Skip => WriteOk(s, step);
    case Gather(groups) => GatherOk(s, groups);
    case Push(_, _) => WritersOk(s, step);
    case Close(_, _, _) => WritersOk(s, step);
    case _ => BetweenGroupsOk(s, step);
  }

  lemma {:induction false} JobInvariant(steps: seq<Step>)
    requires Runs(Empty, steps)
    ensures JobOk(After(Empty, steps))
  {
    if steps != [] {
      JobInvariant(steps[..|steps| - 1]);
      StepOk(After(Empty, steps[..|steps| - 1]), steps[|steps| - 1]);
    }
  }

  // ----------------------------------------------------------------------- conservation

  /** Every row is held as often as it was pushed, but for what was lost and what is doubled. */
  ghost predicate Balanced(s: State, r: nat) {
    Held(s, r) + s.lost(r) == s.pushed(r) + s.twice(r) + Times(Doubled(s), r)
  }

  lemma DoubledAfterDelete(left: seq<Key>, keys: seq<Key>, read: set<Key>, m: map<Key, Rows>, r: nat)
    requires left != [] && NoRepeats(left + keys)
    ensures var due := if left[0] in read then Times(RowsIn(m, left[0]), r) else 0;
            && Times(RowsOf(left, read, m), r) == due + Times(RowsOf(left[1..], read, m), r)
            && RowsOf(left[1..], read, m) == RowsOf(left[1..], read, m - {left[0]})
  {
    var k := left[0];
    assert left + keys == [k] + (left[1..] + keys);
    TailNoRepeats([k], left[1..] + keys);
    assert k in [k] && forall x | x in left[1..] :: x in left[1..] + keys;
    RowsOfSame(left[1..], read, m, m - {k});
    TimesAppend(if k in read then RowsIn(m, k) else [], RowsOf(left[1..], read, m), r);
    assert Times([], r) == 0;
    hide Times; hide NoRepeats;
  }

  lemma DeleteBalanced(s: State, ok: bool, r: nat)
    requires JobOk(s) && Enabled(s, Delete(ok)) && Balanced(s, r)
    ensures Balanced(Next(s, Delete(ok)), r)
  {
    var left, read := s.job.phase.left, s.job.phase.read;
    assert NoRepeats(left + KeysOf(s.job.todo));
    hide JobOk; hide RowsOf; hide RowsIn; hide KeysOf; hide Tally; hide Times; hide NoRepeats;
    DoubledAfterDelete(left, KeysOf(s.job.todo), read, s.inprocess, r);
    TallyMinus(s.inprocess, left[0], r);
    TimesNone(r);
  }

  lemma TimesNone(r: nat)
    ensures Times([], r) == 0
  { }

  lemma PublishBalanced(s: State, ok: bool, r: nat)
    requires JobOk(s) && Enabled(s, Publish(ok)) && Balanced(s, r)
    ensures Balanced(Next(s, Publish(ok)), r)
  {
    var p := Parquet(s.job.phase.group.front, s.job.ulid);
    assert p !in s.parquets && s.job.phase.rows == RowsOf(s.job.phase.group.files, s.job.phase.read, s.inprocess);
    TallyPut(s.parquets, p, s.job.phase.rows, r);
    assert RowsIn(s.parquets, p) == [] && Times([], r) == 0;
    hide Tally; hide Times; hide RowsOf; hide JobOk; hide KeysOf;
  }

  lemma PushBalanced(s: State, name: string, rows: Rows, r: nat)
    requires Balanced(s, r)
    ensures Balanced(Next(s, Push(name, rows)), r)
  {
    hide Tally; hide Times; hide RowsOf; hide KeysOf; hide RowsIn;
    TallyPut(s.writers, name, RowsIn(s.writers, name) + rows, r);
    TimesAppend(RowsIn(s.writers, name), rows, r);
  }

  lemma CloseBalanced(s: State, name: string, target: string, ok: bool, r: nat)
    requires Enabled(s, Close(name, target, ok)) && Balanced(s, r)
    ensures Balanced(Next(s, Close(name, target, ok)), r)
  {
    hide Tally; hide Times; hide RowsOf; hide KeysOf; hide AfterDot;
    TallyMinus(s.writers, name, r);
    if ok { TallyPut(s.arrows, target, s.writers[name], r); }
    TimesNone(r);
  }

  lemma MoveBalanced(s: State, ok: bool, r: nat)
    requires Enabled(s, Move(ok)) && Balanced(s, r)
    ensures Balanced(Next(s, Move(ok)), r)
  {
    hide Tally; hide Times; hide RowsOf; hide KeysOf;
    var name := s.job.pending[0];
    if name in s.arrows {
      TallyMinus(s.arrows, name, r);
      TallyPut(s.inprocess, Key(s.job.minute, name), s.arrows[name], r);
    }
  }

  lemma CrashBalanced(s: State, r: nat)
    requires Balanced(s, r)
    ensures Balanced(Next(s, Crash), r)
  {
    TimesNone(r);
    hide Times; hide RowsOf; hide KeysOf;
  }

  lemma StepBalanced(s: State, step: Step, r: nat)
    requires JobOk(s) && Enabled(s, step) && Balanced(s, r)
    ensures Balanced(Next(s, step), r)
  {
    match step
    case Push(name, rows) => PushBalanced(s, name, rows, r);
    case Close(name, target, ok) => CloseBalanced(s, name, target, ok, r);
    case Move(ok) => MoveBalanced(s, ok, r);
    case Publish(ok) => PublishBalanced(s, ok, r);
    case Delete(ok) => DeleteBalanced(s, ok, r);
    case Crash => CrashBalanced(s, r);
    case _ => hide Tally; hide JobOk; hide Gathers; hide NoRepeats; hide KeysOf;
  }

  /** Over every run, with crashes and failing file operations anywhere, each row is held as
      often as it was pushed, less what was lost, plus what a crash or a failed deletion left
      twice, and plus what waits for deletion with its parquet in place. */
  lemma {:induction false} RowsConserved(steps: seq<Step>, r: nat)
    requires Runs(Empty, steps)
    ensures var s := After(Empty, steps);
            Held(s, r) + s.lost(r) == s.pushed(r) + s.twice(r) + Times(Doubled(s), r)
  {
    if steps != [] {
      var rest := steps[..|steps| - 1];
      RowsConserved(rest, r);
      JobInvariant(rest);
      StepBalanced(After(Empty, rest), steps[|steps| - 1], r);
      hide Held; hide Doubled; hide Next; hide Enabled; hide JobOk;
    }
  }

  /** A pushed row that was never lost is in some file. */
  lemma NothingVanishes(steps: seq<Step>, r: nat)
    requires Runs(Empty, steps)
    requires After(Empty, steps).pushed(r) > 0 && After(Empty, steps).lost(r) == 0
    ensures Held(After(Empty, steps), r) > 0
  {
    RowsConserved(steps, r);
    hide Held; hide Doubled;
  }

  /** In every run, an arrow file the reader could read is deleted only when each of its rows is
      in a parquet file that is in place. */
  lemma StoredBeforeDeleted(steps: seq<Step>)
    requires Runs(Empty, steps) && Enabled(After(Empty, steps), Delete(true))
    ensures var s := After(Empty, steps);
            var p, k := Parquet(s.job.phase.group.front, s.job.ulid), s.job.phase.left[0];
            k in s.job.phase.read ==>
              p in s.parquets && k in s.inprocess && forall row | row in s.inprocess[k] :: row in s.parquets[p]
  {
    JobInvariant(steps);
    var s := After(Empty, steps);
    assert s.job.phase.left[0] in PendingKeys(s.job);
  }

  /** A run in which an init job's conversions all go through leaves no file to convert in any
      processing directory, whatever earlier runs left there. */
  lemma InitRunClears(steps: seq<Step>)
    requires Runs(Empty, steps) && Enabled(After(Empty, steps), Finish)
    ensures var s := After(Empty, steps);
            s.job.init && s.job.smooth ==> forall k | k in s.inprocess :: Front(k.name).None?
  {
    JobInvariant(steps);
    var s := After(Empty, steps);
    assert PendingKeys(s.job) == [];
  }

  /** A step after which some rows are in no file: a writer that could not be finished, a move
      onto a file of the same name, the deletion of a file that could not be read, or a crash
      with rows in open writers. */
  predicate LosesRows(s: State, step: Step)
    requires Enabled(s, step)
  {
    match step
    case Close(name, _, ok) => !ok && s.writers[name] != []
    case Move(ok) =>
      ok && s.job.pending[0] in s.arrows && RowsIn(s.inprocess, Key(s.job.minute, s.job.pending[0])) != []
    case Delete(ok) =>
      ok && s.job.phase.left[0] !in s.job.phase.read && RowsIn(s.inprocess, s.job.phase.left[0]) != []
    case Crash => exists name | name in s.writers :: s.writers[name] != []
    case _ => false
  }

  lemma PlusExact(c: Counts, rows: Rows)
    ensures (forall r :: Plus(c, rows)(r) == c(r)) <==> rows == []
  {
    if rows != [] {
      TimesPositive(rows, rows[0]);
      assert Plus(c, rows)(rows[0]) > c(rows[0]);
    }
  }

  lemma WritersTally(writers: map<string, Rows>)
    ensures (forall r :: Tally(writers, r) == 0) <==> forall name | name in writers :: writers[name] == []
  {
    if forall name | name in writers :: writers[name] == [] {
      forall r ensures Tally(writers, r) == 0 { NoneSums(PerFile(writers, r)); }
    } else {
      var name :| name in writers && writers[name] != [];
      var r := writers[name][0];
      TallyMinus(writers, name, r);
      TimesPositive(writers[name], r);
    }
  }

  /** Those are exactly the steps that lose rows. */
  lemma LosesExact(s: State, step: Step)
    requires Enabled(s, step)
    ensures (forall r :: Next(s, step).lost(r) == s.lost(r)) <==> !LosesRows(s, step)
  {
    hide Plus; hide Tally; hide Gathers; hide RowsOf; hide Times; hide AfterDot; hide NoRepeats;
    PlusExact(s.lost, []);
    match step
    case Close(name, _, _) => PlusExact(s.lost, s.writers[name]);
    case Move(_) => PlusExact(s.lost, RowsIn(s.inprocess, Key(s.job.minute, s.job.pending[0])));
    case Delete(_) => PlusExact(s.lost, RowsIn(s.inprocess, s.job.phase.left[0]));
    case Crash =>
      WritersTally(s.writers);
      assert forall r :: Next(s, Crash).lost(r) == s.lost(r) + Tally(s.writers, r);
    case _ =>
  }

  // -------------------------------------------------------------------- undisturbed runs

  /** No crash, no failing file operation, every file readable, every name well formed. */
  ghost predicate Undisturbed(s: State, step: Step) {
    match step
    case Push(name, _) => Front(name).Some?
    case Close(_, _, ok) => ok
    case Move(ok) => ok
    case Write(read) => s.job.Converting? && s.job.todo != [] && forall k | k in s.job.todo[0].files :: k in read
    case Publish(ok) => ok
    case Delete(ok) => ok
    case Skip => false
    case Abort => false
    case Crash => false
    case _ => true
  }

  ghost predicate UndisturbedRun(steps: seq<Step>)
    requires Runs(Empty, steps)
    decreases |steps|
  {
    steps == [] ||
    (var rest := steps[..|steps| - 1];
     UndisturbedRun(rest) && Undisturbed(After(Empty, rest), steps[|steps| - 1]))
  }

  ghost predicate Named(s: State) {
    && (forall name | name in s.writers :: Front(name).Some?)
    && (forall name | name in s.arrows :: Front(name).Some?)
    && (forall k | k in s.inprocess :: Front(k.name).Some?)
  }

  /** Between jobs the processing directories are empty; within one they hold its files only. */
  ghost predicate Tidy(s: State) {
    match s.job
    case Idle => s.inprocess == map[]
    case Moving(minute, _, _, pending) =>
      NoRepeats(pending) && forall k | k in s.inprocess :: k.minute == minute && k.name !in pending
    case Converting(_, _, _, _, phase, _) =>
      && (forall k | k in s.inprocess :: k in PendingKeys(s.job))
      && (phase.Written? ==> forall k | k in phase.group.files :: k in phase.read)
      && (phase.Deleting? ==> forall k | k in phase.left :: k in phase.read)
  }

  ghost predicate Lossless(s: State) {
    forall r :: s.lost(r) == 0 && s.twice(r) == 0
  }

  lemma MoveTidy(s: State)
    requires Enabled(s, Move(true)) && Named(s) && Tidy(s) && Lossless(s)
    ensures var t := Next(s, Move(true)); Named(t) && Tidy(t) && Lossless(t)
  {
    var pending := s.job.pending;
    assert pending == [pending[0]] + pending[1..];
    TailNoRepeats([pending[0]], pending[1..]);
    assert pending[0] in [pending[0]] && pending[0] in pending;
    assert Key(s.job.minute, pending[0]) !in s.inprocess;
    hide NoRepeats; hide Front; hide RowsOf; hide Plus; hide Times;
  }

  lemma DeleteTidy(s: State)
    requires Enabled(s, Delete(true)) && Named(s) && Tidy(s) && Lossless(s)
    ensures var t := Next(s, Delete(true)); Named(t) && Tidy(t) && Lossless(t)
  {
    var left, keys := s.job.phase.left, KeysOf(s.job.todo);
    assert left[0] in left && left == [left[0]] + left[1..];
    assert left + keys == [left[0]] + (left[1..] + keys);
    hide NoRepeats; hide Front; hide RowsOf; hide Times; hide KeysOf; hide RowsIn; hide Plus;
  }

  lemma WriteTidy(s: State, step: Step)
    requires Enabled(s, step) && Undisturbed(s, step) && Named(s) && Tidy(s) && Lossless(s)
    requires step.Write? || step.NextGroup?
    ensures var t := Next(s, step); Named(t) && Tidy(t) && Lossless(t)
  {
    if step.Write? { FirstGroup(s.job.todo); } else { assert [] + KeysOf(s.job.todo) == KeysOf(s.job.todo); }
    hide KeysOf; hide RowsOf; hide Fronts; hide Front; hide Times; hide NoRepeats; hide Plus; hide Gathers;
  }

  lemma PublishTidy(s: State, step: Step)
    requires Enabled(s, step) && Undisturbed(s, step) && Named(s) && Tidy(s) && Lossless(s)
    requires step.Publish? || step.Gather?
    ensures var t := Next(s, step); Named(t) && Tidy(t) && Lossless(t)
  {
    hide KeysOf; hide RowsOf; hide Fronts; hide Front; hide Times; hide NoRepeats; hide Plus;
  }

  lemma DirectoryTidy(s: State, step: Step)
    requires Enabled(s, step) && Undisturbed(s, step) && Named(s) && Tidy(s) && Lossless(s)
    requires step.Push? || step.Close?
    ensures var t := Next(s, step); Named(t) && Tidy(t) && Lossless(t)
  {
    hide KeysOf; hide RowsOf; hide Times; hide NoRepeats; hide AfterDot; hide Tidy; hide Plus;
    var t := Next(s, step);
    assert t.job == s.job && t.inprocess == s.inprocess && t.lost == s.lost && t.twice == s.twice;
    TidySame(s, t);
  }

  lemma TidySame(s: State, t: State)
    requires Tidy(s) && t.job == s.job && t.inprocess == s.inprocess
    ensures Tidy(t)
  {
    hide KeysOf; hide NoRepeats;
  }

  lemma StepTidy(s: State, step: Step)
    requires Enabled(s, step) && Undisturbed(s, step) && Named(s) && Tidy(s) && Lossless(s)
    ensures var t := Next(s, step); Named(t) && Tidy(t) && Lossless(t)
  {
    match step
    case Push(_, _) => DirectoryTidy(s, step);
    case Close(_, _, _) => DirectoryTidy(s, step);
    case Move(_) => MoveTidy(s);
    case Delete(_) => DeleteTidy(s);
    case Finish =>
      assert PendingKeys(s.job) == [];
      hide KeysOf; hide RowsOf; hide Front; hide Times; hide Plus; hide NoRepeats;
    case Start(_, _, _, _) => hide KeysOf; hide RowsOf; hide Front; hide Times; hide Plus; hide NoRepeats;
    case Write(_) => WriteTidy(s, step);
    case NextGroup => WriteTidy(s, step);
    case Publish(_) => PublishTidy(s, step);
    case Gather(_) => PublishTidy(s, step);
  }

  lemma {:induction false} TidyInvariant(steps: seq<Step>)
    requires Runs(Empty, steps) && UndisturbedRun(steps)
    ensures var s := After(Empty, steps); Named(s) && Tidy(s) && Lossless(s)
  {
    if steps != [] {
      var rest := steps[..|steps| - 1];
      TidyInvariant(rest);
      JobInvariant(rest);
      StepTidy(After(Empty, rest), steps[|steps| - 1]);
    }
  }

  /** In an undisturbed run each row is held exactly as often as it was pushed, outside the
      moments when a published group's arrow files wait for deletion. */
  lemma ExactlyOnce(steps: seq<Step>, r: nat)
    requires Runs(Empty, steps) && UndisturbedRun(steps)
    ensures var s := After(Empty, steps); Held(s, r) == s.pushed(r) + Times(Doubled(s), r)
    ensures var s := After(Empty, steps); s.job.Idle? ==> s.inprocess == map[] && Held(s, r) == s.pushed(r)
  {
    TidyInvariant(steps);
    RowsConserved(steps, r);
  }
}

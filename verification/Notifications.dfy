/** Notifications of one target of one alert: calls and sleeping repeat tasks share a timeout
    state, and interleave between their critical sections. */
module Notifications {
  import opened Values
  import opened AlertTasks

  datatype Timeout = Timeout(timedOut: bool, awaiting: bool)

  const Fresh := Timeout(false, false)

  datatype Retry = Infinite | Finite(times: nat)

  /** Where a repeat task is: about to look the alert's state up, sleeping with what it saw, or
      woken and about to send. */
  datatype Phase = Looking | Sleeping(seen: AlertState) | Waking | Ended

  /** `left` is how many rounds the task still makes, with no bound for an infinite one. */
  datatype Task = Task(left: Option<nat>, sent: nat, phase: Phase)

  /** Besides the shared state and the tasks: tasks about to be spawned, and how many triggers
      and how many resolves within a timeout have been sent. */
  datatype Target = Target(timeout: Timeout, tasks: seq<Task>, spawning: nat, triggers: nat, resolves: nat)

  datatype Step =
    | Call(state: AlertState)
    | Spawn
    | Look(task: nat, seen: Option<AlertState>)
    | Wake(task: nat)
    | Send(task: nat)
    | End(task: nat)

  const TWO_TO_64: int := 0x1_0000_0000_0000_0000

  /** The rounds of `for _ in 0..(times - 1)` on an unsigned word. */
  function Rounds(r: Retry): Option<nat> {
    match r case Infinite => None case Finite(times) => Some((times - 1) % TWO_TO_64)
  }

  // ----------------------------------------------------------------- critical sections

  datatype Reaction = Reaction(timeout: Timeout, notify: bool, spawn: bool)

  /** `call` */
  function OnCall(t: Timeout, state: AlertState): Reaction {
    match state
    case Triggered => if t.timedOut then Reaction(t, false, false) else Reaction(Timeout(true, true), true, true)
    case NotTriggered =>
      if t.timedOut && !t.awaiting then Reaction(t, false, false)
      else if t.timedOut then Reaction(t.(awaiting := false), true, false)
      else Reaction(t, true, false)
    case Disabled => Reaction(t, false, false)
  }

  function OnWake(t: Timeout, seen: AlertState): Timeout {
    if seen.Triggered? then t.(awaiting := true) else t.(timedOut := false)
  }

  /** What touches the timeout: a call; a task that woke; a task that ended or lost its alert. */
  datatype Event = Called(state: AlertState) | Woke(seen: AlertState) | Reset

  function AfterEvents(events: seq<Event>): Timeout {
    if events == [] then Fresh
    else
      AfterEvent(AfterEvents(events[..|events| - 1]), events[|events| - 1])
  }

  function AfterEvent(t: Timeout, e: Event): Timeout {
    match e
    case Called(state) => OnCall(t, state).timeout
    case Woke(seen) => OnWake(t, seen)
    case Reset => Fresh
  }

  /** The event ends a timeout: a task ended, or woke from a sleep on an alert not triggered. */
  predicate Ends(e: Event) {
    e.Reset? || (e.Woke? && !e.seen.Triggered?)
  }

  /** A trigger came, and nothing has ended its timeout since. */
  predicate Silenced(events: seq<Event>) {
    exists k | 0 <= k < |events| :: events[k] == Called(Triggered) && forall j | k < j < |events| :: !Ends(events[j])
  }

  /** The event lets one more resolve through: a trigger outside a timeout, or a task that woke
      on a triggered alert. */
  predicate Opens(events: seq<Event>, j: nat) {
    j < |events| && (events[j] == Woke(Triggered) || (events[j] == Called(Triggered) && !Silenced(events[..j])))
  }

  /** The event closes that again: a resolve within a timeout, or the end of a task. */
  predicate Closes(events: seq<Event>, j: nat) {
    j < |events| && (events[j] == Reset || (events[j] == Called(NotTriggered) && Silenced(events[..j])))
  }

  /** A resolve has been let through and not come yet. */
  predicate Awaits(events: seq<Event>) {
    exists j | 0 <= j < |events| :: Opens(events, j) && forall k | j < k < |events| :: !Closes(events, k)
  }

  lemma SilencedMore(events: seq<Event>, e: Event)
    ensures Silenced(events + [e]) <==> e == Called(Triggered) || (Silenced(events) && !Ends(e))
  {
    var all, n := events + [e], |events|;
    assert all[n] == e && forall k | 0 <= k < n :: all[k] == events[k];
    if e == Called(Triggered) { assert all[n] == Called(Triggered); }
    if Silenced(events) && !Ends(e) {
      var k :| 0 <= k < n && events[k] == Called(Triggered) && forall j | k < j < n :: !Ends(events[j]);
      assert all[k] == Called(Triggered);
    }
    hide Ends;
  }

  lemma AwaitsMore(events: seq<Event>, e: Event)
    ensures Awaits(events + [e]) <==>
            || e == Woke(Triggered) || (e == Called(Triggered) && !Silenced(events))
            || (Awaits(events) && e != Reset && !(e == Called(NotTriggered) && Silenced(events)))
  {
    var all, n := events + [e], |events|;
    assert all[..n] == events && all[n] == e;
    forall j | 0 <= j < n
      ensures all[j] == events[j] && (Opens(all, j) <==> Opens(events, j)) && (Closes(all, j) <==> Closes(events, j))
    {
      assert all[..j] == events[..j];
    }
    assert Opens(all, n) <==> e == Woke(Triggered) || (e == Called(Triggered) && !Silenced(events));
    assert Closes(all, n) <==> e == Reset || (e == Called(NotTriggered) && Silenced(events));
    hide Opens; hide Closes;
    if Awaits(events) && !Closes(all, n) {
      var j :| 0 <= j < n && Opens(events, j) && forall k | j < k < n :: !Closes(events, k);
      assert Opens(all, j);
    }
  }

  lemma {:induction false} TimeoutExact(events: seq<Event>)
    ensures AfterEvents(events).timedOut <==> Silenced(events)
    ensures AfterEvents(events).awaiting <==> Awaits(events)
  {
    if events != [] {
      var rest, last := events[..|events| - 1], events[|events| - 1];
      TimeoutExact(rest);
      assert events == rest + [last];
      SilencedMore(rest, last);
      AwaitsMore(rest, last);
      hide Silenced; hide Awaits;
    }
  }

  /** A trigger notifies, and spawns a task, exactly outside a timeout; a resolve always outside
      one, and within one if none has come since it began or a task last woke on a trigger. */
  lemma NotifiesExact(events: seq<Event>, state: AlertState)
    ensures var r := OnCall(AfterEvents(events), state);
            && (r.notify <==> (state.Triggered? && !Silenced(events))
                              || (state.NotTriggered? && (Silenced(events) ==> Awaits(events))))
            && (r.spawn <==> state.Triggered? && !Silenced(events))
  {
    TimeoutExact(events);
    hide Silenced; hide Awaits;
  }

  class TimeoutState {
    var timedOut: bool
    var awaiting: bool

    function Now(): Timeout
      reads this
    {
      Timeout(timedOut, awaiting)
    }

    method Call(state: AlertState) returns (notify: bool, spawn: bool)
      modifies this
      ensures Reaction(Now(), notify, spawn) == OnCall(old(Now()), state)
    {
      notify, spawn := false, false;
      match state
      case Triggered =>
        if !timedOut {
          notify, spawn := true, true;
          timedOut, awaiting := true, true;
        }
      case NotTriggered =>
        if timedOut {
          if awaiting {
            awaiting := false;
          } else {
            return;
          }
        }
        notify := true;
      case Disabled =>
    }

    method Wake(seen: AlertState) returns (repeat: bool)
      modifies this
      ensures Now() == OnWake(old(Now()), seen) && repeat == seen.Triggered?
    {
      if seen == Triggered {
        awaiting := true;
      } else {
        timedOut := false;
      }
      repeat := seen == Triggered;
    }
  }

  // ------------------------------------------------------------------------- interleaving

  predicate Enabled(w: Target, step: Step) {
    match step
    case Call(_) => true
    case Spawn => w.spawning > 0
    case Look(i, _) => i < |w.tasks| && w.tasks[i].phase.Looking? && w.tasks[i].left != Some(0)
    case Wake(i) => i < |w.tasks| && w.tasks[i].phase.Sleeping?
    case Send(i) => i < |w.tasks| && w.tasks[i].phase.Waking?
    case End(i) => i < |w.tasks| && w.tasks[i].phase.Looking? && w.tasks[i].left == Some(0)
  }

  function LeftAfter(left: Option<nat>): Option<nat>
    requires left != Some(0)
  {
    if left.None? then None else Some(left.value - 1)
  }

  function Next(w: Target, step: Step, retry: Retry): Target
    requires Enabled(w, step)
  {
    match step
    case Call(state) =>
      var r := OnCall(w.timeout, state);
      w.(timeout := r.timeout, spawning := w.spawning + if r.spawn then 1 else 0,
         triggers := w.triggers + if r.notify && state.Triggered? then 1 else 0,
         resolves := w.resolves + if r.notify && state.NotTriggered? && w.timeout.timedOut then 1 else 0)
    case Spawn => w.(spawning := w.spawning - 1, tasks := w.tasks + [Task(Rounds(retry), 0, Looking)])
    case Look(i, seen) =>
      var t := w.tasks[i];
      if seen.None? then w.(timeout := Fresh, tasks := w.tasks[i := t.(phase := Ended)])
      else w.(tasks := w.tasks[i := t.(left := LeftAfter(t.left), phase := Sleeping(seen.value))])
    case Wake(i) =>
      var t := w.tasks[i];
      w.(timeout := OnWake(w.timeout, t.phase.seen),
         tasks := w.tasks[i := t.(phase := if t.phase.seen.Triggered? then Waking else Looking)])
    case Send(i) =>
      var t := w.tasks[i];
      w.(triggers := w.triggers + 1, tasks := w.tasks[i := t.(sent := t.sent + 1, phase := Looking)])
    case End(i) => w.(timeout := Fresh, tasks := w.tasks[i := w.tasks[i].(phase := Ended)])
  }

  const Start := Target(Fresh, [], 0, 0, 0)

  predicate Runs(steps: seq<Step>, retry: Retry)
    decreases |steps|, 0
  {
    steps == [] ||
    (Runs(steps[..|steps| - 1], retry) && Enabled(After(steps[..|steps| - 1], retry), steps[|steps| - 1]))
  }

  function After(steps: seq<Step>, retry: Retry): Target
    requires Runs(steps, retry)
    decreases |steps|, 1
  {
    if steps == [] then Start else Next(After(steps[..|steps| - 1], retry), steps[|steps| - 1], retry)
  }

  /** Tasks that have reopened the wait for a resolve but not sent their trigger yet. */
  function Wakings(tasks: seq<Task>): nat {
    if tasks == [] then 0 else Wakings(tasks[..|tasks| - 1]) + if tasks[|tasks| - 1].phase.Waking? then 1 else 0
  }

  lemma {:induction false} WakingsPut(tasks: seq<Task>, i: nat, t: Task)
    requires i < |tasks|
    ensures Wakings(tasks[i := t]) + (if tasks[i].phase.Waking? then 1 else 0) ==
            Wakings(tasks) + if t.phase.Waking? then 1 else 0
  {
    var last := |tasks| - 1;
    if i < last {
      WakingsPut(tasks[..last], i, t);
      assert tasks[i := t][..last] == tasks[..last][i := t];
    } else {
      assert tasks[i := t][..last] == tasks[..last];
    }
  }

  lemma WakingsSpawned(tasks: seq<Task>, t: Task)
    ensures Wakings(tasks + [t]) == Wakings(tasks) + if t.phase.Waking? then 1 else 0
  {
    assert (tasks + [t])[..|tasks|] == tasks;
  }

  /** A finite task of at least one time makes no more than one repeat less. */
  ghost predicate TaskOk(t: Task, retry: Retry) {
    retry.Finite? ==>
      t.left.Some? && t.sent + t.left.value + (if t.phase.Sleeping? || t.phase.Waking? then 1 else 0) <= Rounds(retry).value
  }

  ghost predicate Bounded(w: Target, retry: Retry) {
    && w.resolves + (if w.timeout.awaiting then 1 else 0) <= w.triggers + Wakings(w.tasks)
    && (forall i | 0 <= i < |w.tasks| :: TaskOk(w.tasks[i], retry))
    && (w.timeout.timedOut ==> w.spawning > 0 || SomeLive(w.tasks))
  }

  predicate SomeLive(tasks: seq<Task>) {
    exists i | 0 <= i < |tasks| :: !tasks[i].phase.Ended?
  }

  /** One task moves on, the others stay. */
  lemma PutBounded(w: Target, i: nat, t: Task, retry: Retry)
    requires i < |w.tasks| && Bounded(w, retry) && TaskOk(t, retry)
    ensures var tasks := w.tasks[i := t];
            && (forall k | 0 <= k < |tasks| :: TaskOk(tasks[k], retry))
            && (!t.phase.Ended? ==> SomeLive(tasks))
            && Wakings(tasks) + (if w.tasks[i].phase.Waking? then 1 else 0) ==
               Wakings(w.tasks) + if t.phase.Waking? then 1 else 0
  {
    hide TaskOk;
    WakingsPut(w.tasks, i, t);
    assert w.tasks[i := t][i] == t;
  }

  lemma SpawnBounded(w: Target, retry: Retry)
    requires w.spawning > 0 && Bounded(w, retry)
    ensures Bounded(Next(w, Spawn, retry), retry)
  {
    var t := Task(Rounds(retry), 0, Looking);
    WakingsSpawned(w.tasks, t);
    assert TaskOk(t, retry);
    hide TaskOk; hide Wakings;
    assert (w.tasks + [t])[|w.tasks|] == t;
  }

  lemma StepBounded(w: Target, step: Step, retry: Retry)
    requires Enabled(w, step) && Bounded(w, retry)
    ensures Bounded(Next(w, step, retry), retry)
  {
    var w' := Next(w, step, retry);
    match step
    case Call(_) =>
      hide TaskOk; hide SomeLive;
    case Spawn =>
      SpawnBounded(w, retry);
      hide *;
    case _ =>
      var i := step.task;
      assert TaskOk(w.tasks[i], retry);
      assert TaskOk(w'.tasks[i], retry);
      PutBounded(w, i, w'.tasks[i], retry);
      hide TaskOk; hide SomeLive; hide Wakings;
  }

  /** Over every interleaving: the resolves sent within a timeout, and one more if a resolve is
      awaited, do not outnumber the triggers sent and those a woken task is about to send; no
      finite task repeats more often than its rounds; and a target is only silenced while some
      task is there to end it. */
  lemma NotificationBound(steps: seq<Step>, retry: Retry)
    requires Runs(steps, retry)
    ensures var w := After(steps, retry);
            && w.resolves + (if w.timeout.awaiting then 1 else 0) <= w.triggers + Wakings(w.tasks)
            && (forall i | 0 <= i < |w.tasks| && retry.Finite? :: w.tasks[i].sent <= Rounds(retry).value)
            && (w.timeout.timedOut ==> w.spawning > 0 || exists i | 0 <= i < |w.tasks| :: !w.tasks[i].phase.Ended?)
  {
    AlwaysBounded(steps, retry);
  }

  lemma {:induction false} AlwaysBounded(steps: seq<Step>, retry: Retry)
    requires Runs(steps, retry)
    ensures Bounded(After(steps, retry), retry)
  {
    if steps != [] {
      AlwaysBounded(steps[..|steps| - 1], retry);
      StepBounded(After(steps[..|steps| - 1], retry), steps[|steps| - 1], retry);
    }
  }

  // ------------------------------------------------------------------------- what runs tell

  function EventsOf(w: Target, step: Step): seq<Event>
    requires Enabled(w, step)
  {
    match step
    case Call(state) => [Called(state)]
    case Look(_, None) => [Reset]
    case Wake(i) => [Woke(w.tasks[i].phase.seen)]
    case End(_) => [Reset]
    case _ => []
  }

  function Trace(steps: seq<Step>, retry: Retry): seq<Event>
    requires Runs(steps, retry)
  {
    if steps == [] then []
    else
      var rest := steps[..|steps| - 1];
      Trace(rest, retry) + EventsOf(After(rest, retry), steps[|steps| - 1])
  }

  /** Over every interleaving the timeout is that of the run's events. */
  lemma {:induction false} TraceExact(steps: seq<Step>, retry: Retry)
    requires Runs(steps, retry)
    ensures After(steps, retry).timeout == AfterEvents(Trace(steps, retry))
  {
    if steps != [] {
      var rest := steps[..|steps| - 1];
      TraceExact(rest, retry);
      var before, events := Trace(rest, retry), EventsOf(After(rest, retry), steps[|steps| - 1]);
      assert before + [] == before;
      if events != [] { AfterMore(before, events[0]); }
      OneEvent(After(rest, retry), steps[|steps| - 1], retry);
      hide OnCall; hide OnWake; hide Next; hide EventsOf; hide Enabled; hide AfterEvents;
    }
  }

  lemma AfterMore(events: seq<Event>, e: Event)
    ensures AfterEvents(events + [e]) == AfterEvent(AfterEvents(events), e)
  {
    assert (events + [e])[..|events|] == events;
  }

  lemma OneEvent(w: Target, step: Step, retry: Retry)
    requires Enabled(w, step)
    ensures var events := EventsOf(w, step);
            && (events == [] ==> Next(w, step, retry).timeout == w.timeout)
            && (events != [] ==> events == [events[0]] && Next(w, step, retry).timeout == AfterEvent(w.timeout, events[0]))
  { }

  /** How often a task has looked its alert up and gone to sleep. */
  function Looks(steps: seq<Step>, i: nat): nat {
    if steps == [] then 0
    else
      var last := steps[|steps| - 1];
      Looks(steps[..|steps| - 1], i) + if last.Look? && last.task == i && last.seen.Some? then 1 else 0
  }

  function Sends(steps: seq<Step>, i: nat): nat {
    if steps == [] then 0 else Sends(steps[..|steps| - 1], i) + if steps[|steps| - 1] == Send(i) then 1 else 0
  }

  /** How often it found its alert triggered. */
  function Alarms(steps: seq<Step>, i: nat): nat {
    if steps == [] then 0 else Alarms(steps[..|steps| - 1], i) + if steps[|steps| - 1] == Look(i, Some(Triggered)) then 1 else 0
  }

  /** The task has come to its end or lost its alert. */
  predicate Gone(steps: seq<Step>, i: nat) {
    exists k | 0 <= k < |steps| :: steps[k] == End(i) || steps[k] == Look(i, None)
  }

  lemma GoneMore(steps: seq<Step>, i: nat)
    requires steps != []
    ensures var last := steps[|steps| - 1];
            Gone(steps, i) <==> Gone(steps[..|steps| - 1], i) || last == End(i) || last == Look(i, None)
  {
    var rest := steps[..|steps| - 1];
    assert forall k | 0 <= k < |rest| :: steps[k] == rest[k];
    if k :| 0 <= k < |rest| && (rest[k] == End(i) || rest[k] == Look(i, None)) {
      assert steps[k] == End(i) || steps[k] == Look(i, None);
    }
  }

  /** The rounds left and the rounds made are the configured ones; a trigger is sent for each
      alarm, but for one it still sleeps on or is about to send; and a task is over when it is
      gone. */
  ghost predicate TaskCounted(t: Task, steps: seq<Step>, i: nat, retry: Retry) {
    && t.sent == Sends(steps, i)
    && Alarms(steps, i) == Sends(steps, i) + (if t.phase == Sleeping(Triggered) || t.phase.Waking? then 1 else 0)
    && (t.phase.Ended? <==> Gone(steps, i))
    && if retry.Infinite? then t.left.None? else t.left.Some? && t.left.value + Looks(steps, i) == Rounds(retry).value
  }

  lemma {:induction false} RoundsMade(steps: seq<Step>, retry: Retry, i: nat)
    requires Runs(steps, retry)
    ensures var w := After(steps, retry);
            if i < |w.tasks| then TaskCounted(w.tasks[i], steps, i, retry)
            else Looks(steps, i) == 0 && Sends(steps, i) == 0 && Alarms(steps, i) == 0 && !Gone(steps, i)
  {
    if steps != [] {
      RoundsMade(steps[..|steps| - 1], retry, i);
      GoneMore(steps, i);
      OneTask(After(steps[..|steps| - 1], retry), steps[|steps| - 1], retry, i);
      hide Runs; hide Gone; hide Next; hide Enabled; hide Rounds;
    }
  }

  /** What a step does to one task. */
  lemma OneTask(w: Target, step: Step, retry: Retry, i: nat)
    requires Enabled(w, step)
    ensures var w' := Next(w, step, retry);
            if i >= |w.tasks| then
              && (step.Look? || step.Send? || step.End? ==> step.task != i)
              && (i < |w'.tasks| ==> w'.tasks[i] == Task(Rounds(retry), 0, Looking))
            else
              i < |w'.tasks| &&
              var t, t' := w.tasks[i], w'.tasks[i];
              && (step == Send(i) ==> t.phase.Waking? && t' == Task(t.left, t.sent + 1, Looking))
              && (step == End(i) || step == Look(i, None) ==> t.phase.Looking? && t' == t.(phase := Ended))
              && (step.Look? && step.task == i && step.seen.Some? ==>
                    t.phase.Looking? && t.left != Some(0) && t' == Task(LeftAfter(t.left), t.sent, Sleeping(step.seen.value)))
              && (step == Wake(i) ==>
                    t.phase.Sleeping? && t' == t.(phase := if t.phase.seen.Triggered? then Waking else Looking))
              && (step.Call? || step.Spawn? || step.task != i ==> t' == t)
  {
    hide OnCall; hide OnWake; hide Rounds;
  }

  /** A task ends of itself exactly when its configuration is finite, it has made all its rounds
      and sleeps or sends no more. */
  lemma EndsExact(steps: seq<Step>, retry: Retry, i: nat)
    requires Runs(steps, retry)
    ensures var w := After(steps, retry);
            Enabled(w, End(i)) <==>
            i < |w.tasks| && w.tasks[i].phase.Looking? && retry.Finite? && Looks(steps, i) == Rounds(retry).value
  {
    RoundsMade(steps, retry, i);
  }

  /** The triggers sent: by calls outside a timeout, and by tasks. */
  function Triggers(steps: seq<Step>, retry: Retry): nat
    requires Runs(steps, retry)
  {
    if steps == [] then 0
    else
      var rest, last := steps[..|steps| - 1], steps[|steps| - 1];
      Triggers(rest, retry) + if last.Send? || (last == Call(Triggered) && !Silenced(Trace(rest, retry))) then 1 else 0
  }

  /** The resolves sent within a timeout. */
  function Resolves(steps: seq<Step>, retry: Retry): nat
    requires Runs(steps, retry)
  {
    if steps == [] then 0
    else
      var rest, last := steps[..|steps| - 1], steps[|steps| - 1];
      var events := Trace(rest, retry);
      Resolves(rest, retry) + if last == Call(NotTriggered) && Silenced(events) && Awaits(events) then 1 else 0
  }

  lemma {:induction false} SentExact(steps: seq<Step>, retry: Retry)
    requires Runs(steps, retry)
    ensures After(steps, retry).triggers == Triggers(steps, retry) && After(steps, retry).resolves == Resolves(steps, retry)
  {
    if steps != [] {
      var rest := steps[..|steps| - 1];
      SentExact(rest, retry);
      TraceExact(rest, retry);
      TimeoutExact(Trace(rest, retry));
      TellsExact(After(rest, retry), steps[|steps| - 1], retry);
      hide Silenced; hide Awaits; hide Trace; hide Runs; hide AfterEvents; hide Next; hide Enabled;
    }
  }

  lemma TellsExact(w: Target, step: Step, retry: Retry)
    requires Enabled(w, step)
    ensures var t, w' := w.timeout, Next(w, step, retry);
            && w'.triggers == w.triggers + (if step.Send? || (step == Call(Triggered) && !t.timedOut) then 1 else 0)
            && w'.resolves == w.resolves + if step == Call(NotTriggered) && t.timedOut && t.awaiting then 1 else 0
  { }

  /** The rounds of a finite task are one less than its times exactly from one time on: zero
      times wrap around. */
  lemma RoundsExact(times: nat)
    requires times < TWO_TO_64
    ensures Rounds(Finite(times)).value as int == times - 1 <==> times >= 1
  { }

  /** The bound one would expect, without the triggers a woken task is about to send. */
  ghost predicate Strict(w: Target) {
    w.resolves + (if w.timeout.awaiting then 1 else 0) <= w.triggers
  }

  /** A task with rounds lets a resolve through between its wake-up and its send. */
  lemma WakingMatters(retry: Retry)
    requires Rounds(retry) != Some(0)
    ensures exists steps | Runs(steps, retry) :: !Strict(After(steps, retry))
  {
    assert Runs([], retry) && After([], retry) == Start;
    hide Runs; hide After;
    var n, m := Rounds(retry), LeftAfter(Rounds(retry));
    var s1 := Onwards([], Start, Call(Triggered), Target(Timeout(true, true), [], 1, 1, 0), retry);
    var s2 := Onwards(s1, After(s1, retry), Spawn, Target(Timeout(true, true), [Task(n, 0, Looking)], 0, 1, 0), retry);
    var s3 := Onwards(s2, After(s2, retry), Call(NotTriggered),
                      Target(Timeout(true, false), [Task(n, 0, Looking)], 0, 1, 1), retry);
    var s4 := Onwards(s3, After(s3, retry), Look(0, Some(Triggered)),
                      Target(Timeout(true, false), [Task(m, 0, Sleeping(Triggered))], 0, 1, 1), retry);
    var s5 := Onwards(s4, After(s4, retry), Wake(0),
                      Target(Timeout(true, true), [Task(m, 0, Waking)], 0, 1, 1), retry);
    var s6 := Onwards(s5, After(s5, retry), Call(NotTriggered),
                      Target(Timeout(true, false), [Task(m, 0, Waking)], 0, 1, 2), retry);
  }

  ghost predicate Asleep(tasks: seq<Task>) {
    forall i | 0 <= i < |tasks| :: tasks[i].left == Some(0) && (tasks[i].phase.Looking? || tasks[i].phase.Ended?)
  }

  lemma {:induction false} AlwaysAsleep(steps: seq<Step>, retry: Retry)
    requires Runs(steps, retry) && Rounds(retry) == Some(0)
    ensures Asleep(After(steps, retry).tasks)
  {
    if steps != [] { AlwaysAsleep(steps[..|steps| - 1], retry); }
  }

  lemma {:induction false} NoneWaking(tasks: seq<Task>)
    requires Asleep(tasks)
    ensures Wakings(tasks) == 0
  {
    if tasks != [] { NoneWaking(tasks[..|tasks| - 1]); }
  }

  /** Resolves never outnumber triggers, however calls and tasks interleave, exactly when repeat
      tasks make no round. */
  lemma StrictBoundExact(retry: Retry)
    ensures (forall steps | Runs(steps, retry) :: Strict(After(steps, retry))) <==> Rounds(retry) == Some(0)
  {
    if Rounds(retry) == Some(0) {
      forall steps | Runs(steps, retry) ensures Strict(After(steps, retry)) {
        NotificationBound(steps, retry);
        AlwaysAsleep(steps, retry);
        NoneWaking(After(steps, retry).tasks);
      }
    } else {
      WakingMatters(retry);
    }
  }

  /** They make none exactly when the target is configured for one time, which is the default. */
  lemma DefaultExact(retry: Retry)
    requires retry.Finite? ==> retry.times < TWO_TO_64
    ensures Rounds(retry) == Some(0) <==> retry == Finite(1)
  { }

  lemma Onwards(steps: seq<Step>, w: Target, step: Step, w': Target, retry: Retry) returns (more: seq<Step>)
    requires Runs(steps, retry) && After(steps, retry) == w && Enabled(w, step) && Next(w, step, retry) == w'
    ensures Runs(more, retry) && After(more, retry) == w'
  {
    more := steps + [step];
  }

}

/** Alert tasks: the manager's alerts, the queue of requests to the alert runtime, and the tasks
    the runtime runs.  Once the queue is worked off, the tasks are those of the alerts that are
    not disabled. */
module AlertTasks {
  import opened Values

  type Id = nat

  datatype AlertState = Triggered | NotTriggered | Disabled

  datatype Request = Create(id: Id) | Delete(id: Id)

  /** `tasks` is the runtime's map of handles. */
  datatype World = World(alerts: map<Id, AlertState>, queue: seq<Request>, tasks: set<Id>)

  datatype Step =
    | Load(id: Id, state: AlertState)
    | Add(id: Id)
    | UpdateState(id: Id, state: AlertState)
    | Modify(id: Id)
    | Remove(id: Id)
    | Evaluate(id: Id)
    | Deliver

  /** The runtime: an existing task is kept, a missing one is not deleted. */
  function Handled(tasks: set<Id>, r: Request): set<Id> {
    match r case Create(id) => tasks + {id} case Delete(id) => tasks - {id}
  }

  function Replay(tasks: set<Id>, queue: seq<Request>): set<Id> {
    if queue == [] then tasks else Handled(Replay(tasks, queue[..|queue| - 1]), queue[|queue| - 1])
  }

  function Active(alerts: map<Id, AlertState>): set<Id> {
    set id | id in alerts && !alerts[id].Disabled?
  }

  predicate Enabled(w: World, step: Step) {
    match step
    case Load(id, _) => id !in w.alerts
    case Add(id) => id !in w.alerts
    case Deliver => w.queue != []
    case _ => true
  }

  /** What `update_state` asks of the runtime; nothing if the change is refused. */
  function Requests(current: AlertState, next: AlertState, id: Id): seq<Request> {
    if next.Disabled? && !current.Disabled? then [Delete(id)]
    else if current.Disabled? && next.NotTriggered? then [Create(id)]
    else []
  }

  function Next(w: World, step: Step): World
    requires Enabled(w, step)
  {
    match step
    case Load(id, state) =>
      w.(alerts := w.alerts[id := state], queue := w.queue + if state.Disabled? then [] else [Create(id)])
    case Add(id) => w.(alerts := w.alerts[id := NotTriggered], queue := w.queue + [Create(id)])
    case UpdateState(id, state) =>
      if id !in w.alerts || (state.Disabled? && w.alerts[id].Disabled?) then w
      else w.(alerts := w.alerts[id := state], queue := w.queue + Requests(w.alerts[id], state, id))
    case Modify(id) =>
      if id !in w.alerts then w
      else w.(queue := w.queue + [Delete(id)] + if w.alerts[id].Disabled? then [] else [Create(id)])
    case Remove(id) =>
      if id !in w.alerts then w else w.(alerts := w.alerts - {id}, queue := w.queue + [Delete(id)])
    case Evaluate(id) => if id !in w.alerts then w else w.(queue := w.queue + [Delete(id), Create(id)])
    case Deliver => w.(queue := w.queue[1..], tasks := Handled(w.tasks, w.queue[0]))
  }

  /** Once the queue is worked off, exactly the alerts that are not disabled have a task. */
  ghost predicate Agree(w: World) {
    Replay(w.tasks, w.queue) == Active(w.alerts)
  }

  /** A disabled alert that is triggered without a task, or evaluated with one. */
  predicate Breaks(w: World, step: Step) {
    || (step.UpdateState? && step.state.Triggered? && step.id in w.alerts && w.alerts[step.id].Disabled?)
    || (step.Evaluate? && step.id in w.alerts && w.alerts[step.id].Disabled?)
  }

  lemma {:induction false} ReplayAppend(tasks: set<Id>, queue: seq<Request>, more: seq<Request>)
    ensures Replay(tasks, queue + more) == Replay(Replay(tasks, queue), more)
  {
    if more == [] {
      assert queue + more == queue;
    } else {
      assert (queue + more)[..|queue + more| - 1] == queue + more[..|more| - 1];
      ReplayAppend(tasks, queue, more[..|more| - 1]);
    }
  }

  lemma ReplayShort(tasks: set<Id>, r: Request, s: Request)
    ensures Replay(tasks, []) == tasks
    ensures Replay(tasks, [r]) == Handled(tasks, r)
    ensures Replay(tasks, [r, s]) == Handled(Handled(tasks, r), s)
  {
    assert [r][..0] == [] && [r, s][..1] == [r];
  }

  lemma DeliverKeeps(w: World)
    requires w.queue != []
    ensures Replay(Next(w, Deliver).tasks, Next(w, Deliver).queue) == Replay(w.tasks, w.queue)
  {
    assert w.queue == [w.queue[0]] + w.queue[1..];
    ReplayAppend(w.tasks, [w.queue[0]], w.queue[1..]);
    ReplayShort(w.tasks, w.queue[0], w.queue[0]);
  }

  /** Requests about one alert, of which the last decides, can only disagree with that alert. */
  lemma OneAlert(w: World, w': World, id: Id, more: seq<Request>)
    requires Agree(w) && w'.tasks == w.tasks && w'.queue == w.queue + more
    requires more == [] || more == [Create(id)] || more == [Delete(id)] || more == [Delete(id), Create(id)]
    requires forall other | other != id :: other in w'.alerts <==> other in w.alerts
    requires forall other | other != id && other in w.alerts :: w'.alerts[other] == w.alerts[other]
    ensures Agree(w') <==>
            ((if more == [] then id in Active(w.alerts) else more[|more| - 1].Create?) <==> id in Active(w'.alerts))
  {
    var was, now := Active(w.alerts), Replay(Active(w.alerts), more);
    ReplayAppend(w.tasks, w.queue, more);
    ReplayShort(was, Create(id), Create(id));
    ReplayShort(was, Delete(id), Create(id));
    hide Replay;
    assert forall other | other != id :: other in now <==> other in was;
    assert forall other | other != id :: other in Active(w'.alerts) <==> other in was;
    assert now == Active(w'.alerts) <==> (id in now <==> id in Active(w'.alerts));
  }

  /** A step keeps queue and alerts in agreement exactly when it neither triggers nor evaluates
      a disabled alert. */
  lemma StepExact(w: World, step: Step)
    requires Enabled(w, step) && Agree(w)
    ensures Agree(Next(w, step)) <==> !Breaks(w, step)
  {
    hide Agree; hide Replay; hide Handled;
    var w' := Next(w, step);
    match step
    case Deliver =>
      DeliverKeeps(w);
      AgreeMeans(w);
      AgreeMeans(w');
    case Load(id, state) =>
      assert w.queue + [] == w.queue;
      AgreeMeans(w);
      OneAlert(w, w', id, if state.Disabled? then [] else [Create(id)]);
    case Add(id) => OneAlert(w, w', id, [Create(id)]);
    case UpdateState(id, state) =>
      assert w.queue + [] == w.queue;
      if w' != w { OneAlert(w, w', id, Requests(w.alerts[id], state, id)); }
    case Modify(id) =>
      if id in w.alerts {
        var more := if w.alerts[id].Disabled? then [Delete(id)] else [Delete(id), Create(id)];
        assert w'.queue == w.queue + more;
        OneAlert(w, w', id, more);
      }
    case Remove(id) => if id in w.alerts { OneAlert(w, w', id, [Delete(id)]); }
    case Evaluate(id) => if id in w.alerts { OneAlert(w, w', id, [Delete(id), Create(id)]); }
  }

  lemma AgreeMeans(w: World)
    ensures Agree(w) <==> Replay(w.tasks, w.queue) == Active(w.alerts)
  { }

  const Start := World(map[], [], {})

  predicate Runs(steps: seq<Step>)
    decreases |steps|, 0
  {
    steps == [] ||
    (Runs(steps[..|steps| - 1]) && Enabled(After(steps[..|steps| - 1]), steps[|steps| - 1]))
  }

  function After(steps: seq<Step>): World
    requires Runs(steps)
    decreases |steps|, 1
  {
    if steps == [] then Start else Next(After(steps[..|steps| - 1]), steps[|steps| - 1])
  }

  predicate NeverBreaks(steps: seq<Step>)
    requires Runs(steps)
  {
    steps == [] || (NeverBreaks(steps[..|steps| - 1]) && !Breaks(After(steps[..|steps| - 1]), steps[|steps| - 1]))
  }

  /** Over every run without such a step, the queue played onto the tasks gives the alerts that
      are not disabled; with an empty queue the tasks are theirs. */
  lemma {:induction false} TasksAgree(steps: seq<Step>)
    requires Runs(steps) && NeverBreaks(steps)
    ensures Agree(After(steps))
    ensures After(steps).queue == [] ==> After(steps).tasks == Active(After(steps).alerts)
  {
    if steps != [] {
      TasksAgree(steps[..|steps| - 1]);
      StepExact(After(steps[..|steps| - 1]), steps[|steps| - 1]);
    }
  }

  /** An alert's state by its history alone: as loaded, added or last updated, unless removed. */
  function LastState(steps: seq<Step>, id: Id): Option<AlertState> {
    if steps == [] then None
    else
      var before := LastState(steps[..|steps| - 1], id);
      match steps[|steps| - 1]
      case Load(other, state) => if other == id then Some(state) else before
      case Add(other) => if other == id then Some(NotTriggered) else before
      case UpdateState(other, state) => if other == id && before.Some? then Some(state) else before
      case Remove(other) => if other == id then None else before
      case _ => before
  }

  /** Over every run the manager holds each alert in its last state. */
  lemma {:induction false} StatesExact(steps: seq<Step>, id: Id)
    requires Runs(steps)
    ensures var alerts := After(steps).alerts;
            LastState(steps, id) == if id in alerts then Some(alerts[id]) else None
  {
    if steps != [] {
      StatesExact(steps[..|steps| - 1], id);
    }
  }

  // ------------------------------------------------------------------- as the code has it

  datatype Outcome = Done | NoSuchAlert | InvalidStateChange

  class Alerts {
    var alerts: map<Id, AlertState>
    var queue: seq<Request>

    /** `update_state`, with nothing in between its reading and its writing. */
    method UpdateState(id: Id, newState: AlertState) returns (r: Outcome)
      modifies this
      ensures forall tasks :: World(alerts, queue, tasks) == Next(World(old(alerts), old(queue), tasks), Step.UpdateState(id, newState))
      ensures r.NoSuchAlert? <==> id !in old(alerts)
      ensures r.Done? ==> alerts == old(alerts)[id := newState]
      ensures queue == old(queue) + if !r.Done? then [] else
                match (old(alerts)[id], newState)
                case (Disabled, NotTriggered) => [Create(id)]
                case (Disabled, _) => []
                case (_, Disabled) => [Delete(id)]
                case _ => []
      ensures r.InvalidStateChange? <==> id in old(alerts) && newState.Disabled? && old(alerts)[id].Disabled?
    {
      if id !in alerts {
        return NoSuchAlert;
      }
      var current := alerts[id];
      var shouldDelete := newState == Disabled && current != Disabled;
      var shouldCreate := current == Disabled && newState == NotTriggered;
      if newState == Disabled && current == Disabled {
        return InvalidStateChange;
      }
      if shouldDelete {
        queue := queue + [Delete(id)];
      } else if shouldCreate {
        queue := queue + [Create(id)];
      } else {
        assert queue + [] == queue;
      }
      alerts := alerts[id := newState];
      r := Done;
    }
  }

  class Runtime {
    var tasks: set<Id>

    method Receive(r: Request)
      modifies this
      ensures tasks == Handled(old(tasks), r)
    {
      match r
      case Create(id) =>
        if id !in tasks { tasks := tasks + {id}; }
      case Delete(id) =>
        if id in tasks { tasks := tasks - {id}; }
    }
  }

  // --------------------------------------------------------------------- one task's loop

  /** How many evaluations in a row have just failed. */
  function FailedLast(outcomes: seq<bool>): nat {
    if outcomes == [] || outcomes[|outcomes| - 1] then 0 else FailedLast(outcomes[..|outcomes| - 1]) + 1
  }

  lemma {:induction false} FailedLastExact(outcomes: seq<bool>, n: nat)
    ensures FailedLast(outcomes) >= n <==> n <= |outcomes| && forall k | |outcomes| - n <= k < |outcomes| :: !outcomes[k]
  {
    if outcomes != [] && n > 0 { FailedLastExact(outcomes[..|outcomes| - 1], n - 1); }
  }

  /** The loop of an evaluation task, over the outcomes its evaluations would have: it stops at
      the first fourth failure in a row.  From the first failure on it sleeps one minute, and it
      does not return to the alert's frequency when evaluations succeed again. */
  method RunTask(outcomes: seq<bool>, frequency: nat) returns (evaluated: nat, sleeps: seq<nat>)
    ensures evaluated <= |outcomes|
    ensures forall n | 0 <= n < evaluated :: FailedLast(outcomes[..n]) < 4
    ensures FailedLast(outcomes[..evaluated]) < 4 ==> evaluated == |outcomes| && |sleeps| == evaluated
    ensures FailedLast(outcomes[..evaluated]) >= 4 ==> evaluated > 0 && |sleeps| == evaluated - 1
    ensures forall k | 0 <= k < |sleeps| :: sleeps[k] == if forall j | 0 <= j <= k :: outcomes[j] then frequency else 1
  {
    var retries := 0;
    var sleep := frequency;
    sleeps := [];
    evaluated := 0;
    while evaluated < |outcomes|
      invariant evaluated <= |outcomes| && |sleeps| == evaluated
      invariant retries == FailedLast(outcomes[..evaluated]) < 4
      invariant forall n | 0 <= n < evaluated :: FailedLast(outcomes[..n]) < 4
      invariant sleep == if forall j | 0 <= j < evaluated :: outcomes[j] then frequency else 1
      invariant forall k | 0 <= k < |sleeps| :: sleeps[k] == if forall j | 0 <= j <= k :: outcomes[j] then frequency else 1
    {
      var ok := outcomes[evaluated];
      assert outcomes[..evaluated + 1][..evaluated] == outcomes[..evaluated];
      evaluated := evaluated + 1;
      if ok {
        retries := 0;
      } else {
        sleep := 1;
        retries := retries + 1;
        if retries > 3 {
          return;
        }
      }
      sleeps := sleeps + [sleep];
    }
    assert outcomes[..evaluated] == outcomes;
  }
}

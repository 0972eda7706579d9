/** One live-tail pipe as a state machine: a bounded queue of record batches, an unbounded queue
    of skip commands, the sending threads and the one receiver. */
module LiveTailMachine {

  datatype Batch = Batch(payload: int, rows: nat)

  // Every batch offered to the pipe gets an index, its position in `sent`; the queues and the
  // emitted messages hold indices, so "which batch" is never ambiguous.  The receiver's
  // `poll_next` is broken up into its individual `poll_recv` calls, and a sender may act
  // between any two of them.

  datatype Sent = Accepted(rb: Batch) | Dropped(rb: Batch)

  /** Where the receiver is inside `poll_next`. */
  datatype Control =
    | Idle                           // between two polls
    | CommandPending                 // the command queue was empty; the data queue is next
    | DrainData(counted: seq<nat>)   // a skip was taken; data is being drained and counted
    | DrainCommands(counted: seq<nat>)

  /** What a poll hands to the client. */
  datatype Emission = Delivered(index: nat) | SkippedOver(indices: seq<nat>)

  datatype Pipe = Pipe(
    capacity: nat,
    sent: seq<Sent>,
    data: seq<nat>,       // accepted, not yet received
    commands: seq<nat>,   // dropped, skip command not yet received
    unposted: seq<nat>,   // dropped, skip command not yet posted by its sending thread
    control: Control,
    out: seq<Emission>)

  /** `Send` is a whole call of `SenderPipe::send`.  `TrySend` and `Post` are its two halves,
      for a sender that is overtaken between them.  `StopDraining` is a `poll_recv` that
      reports Pending although the queue holds something, as a cooperative scheduler may. */
  datatype Step =
    | Send(rb: Batch)
    | TrySend(rb: Batch)
    | Post(k: nat)
    | PollCommand
    | PollData
    | StopDraining

  function Init(capacity: nat): Pipe {
    Pipe(capacity, [], [], [], [], Idle, [])
  }

  function DoTrySend(p: Pipe, rb: Batch): Pipe {
    if |p.data| < p.capacity then
      p.(sent := p.sent + [Accepted(rb)], data := p.data + [|p.sent|])
    else
      p.(sent := p.sent + [Dropped(rb)], unposted := p.unposted + [|p.sent|])
  }

  function DoPost(p: Pipe, k: nat): Pipe
    requires k < |p.unposted|
  {
    p.(unposted := p.unposted[..k] + p.unposted[k + 1..], commands := p.commands + [p.unposted[k]])
  }

  function DoSend(p: Pipe, rb: Batch): Pipe {
    var q := DoTrySend(p, rb);
    if |q.unposted| > |p.unposted| then DoPost(q, |p.unposted|) else q
  }

  /** `command.poll_recv` at the point the receiver is at. */
  function DoPollCommand(p: Pipe): Pipe
    requires p.control.Idle? || p.control.DrainCommands?
  {
    if p.control.Idle? then
      if p.commands == [] then p.(control := CommandPending)
      else p.(commands := p.commands[1..], control := DrainData([p.commands[0]]))
    else
      if p.commands == [] then Emit(p, p.control.counted)
      else p.(commands := p.commands[1..], control := DrainCommands(p.control.counted + [p.commands[0]]))
  }

  /** `inner.poll_recv` at the point the receiver is at. */
  function DoPollData(p: Pipe): Pipe
    requires p.control.CommandPending? || p.control.DrainData?
  {
    if p.control.CommandPending? then
      if p.data == [] then p.(control := Idle)
      else p.(data := p.data[1..], control := Idle, out := p.out + [Delivered(p.data[0])])
    else
      if p.data == [] then p.(control := DrainCommands(p.control.counted))
      else p.(data := p.data[1..], control := DrainData(p.control.counted + [p.data[0]]))
  }

  function Emit(p: Pipe, counted: seq<nat>): Pipe {
    p.(control := Idle, out := p.out + [SkippedOver(counted)])
  }

  function DoStop(p: Pipe): Pipe
    requires !p.control.Idle?
  {
    match p.control
    case CommandPending => p.(control := Idle)
    case DrainData(counted) => p.(control := DrainCommands(counted))
    case DrainCommands(counted) => Emit(p, counted)
  }

  predicate Enabled(p: Pipe, s: Step) {
    match s
    case Send(_) => true
    case TrySend(_) => true
    case Post(k) => k < |p.unposted|
    case PollCommand => p.control.Idle? || p.control.DrainCommands?
    case PollData => p.control.CommandPending? || p.control.DrainData?
    case StopDraining => !p.control.Idle?
  }

  function Apply(p: Pipe, s: Step): Pipe
    requires Enabled(p, s)
  {
    match s
    case Send(rb) => DoSend(p, rb)
    case TrySend(rb) => DoTrySend(p, rb)
    case Post(k) => DoPost(p, k)
    case PollCommand => DoPollCommand(p)
    case PollData => DoPollData(p)
    case StopDraining => DoStop(p)
  }

  ghost predicate Runs(p: Pipe, steps: seq<Step>)
    decreases |steps|
  {
    steps == [] || (Enabled(p, steps[0]) && Runs(Apply(p, steps[0]), steps[1..]))
  }

  function After(p: Pipe, steps: seq<Step>): Pipe
    requires Runs(p, steps)
    decreases |steps|
  {
    if steps == [] then p else After(Apply(p, steps[0]), steps[1..])
  }

  /** Sends that no poll overtakes: only whole `send` calls occur. */
  predicate AtomicSends(steps: seq<Step>) {
    forall s | s in steps :: !s.TrySend? && !s.Post?
  }

  lemma {:induction false} RunsAppend(p: Pipe, xs: seq<Step>, s: Step)
    requires Runs(p, xs) && Enabled(After(p, xs), s)
    ensures Runs(p, xs + [s]) && After(p, xs + [s]) == Apply(After(p, xs), s)
    decreases |xs|
  {
    if xs == [] {
      assert [s][1..] == [];
    } else {
      RunsAppend(Apply(p, xs[0]), xs[1..], s);
      assert (xs + [s])[1..] == xs[1..] + [s];
    }
  }

  /** A step tells the client something in two cases only: a gap, when the second drain finds no
      more commands or is cut short, and a batch, when a poll that found no command takes one. */
  lemma EmissionExact(p: Pipe, s: Step, e: Emission)
    requires Enabled(p, s)
    ensures Apply(p, s).out == p.out + [e] <==>
            || (p.control.DrainCommands? && (s.StopDraining? || (s.PollCommand? && p.commands == []))
                && e == SkippedOver(p.control.counted))
            || (p.control.CommandPending? && s.PollData? && p.data != [] && e == Delivered(p.data[0]))
    ensures Apply(p, s).out == p.out || exists told :: Apply(p, s).out == p.out + [told]
  {
    var out := Apply(p, s).out;
    assert out != p.out ==> |out| == |p.out| + 1 && out == p.out + [out[|p.out|]];
    assert (p.out + [e])[|p.out|] == e;
    hide DoTrySend; hide DoPost;
    match s
    case Send(rb) => SendsTellNothing(p, rb);
    case TrySend(rb) => SendsTellNothing(p, rb);
    case Post(k) => PostsTellNothing(p, k);
    case _ =>
  }

  lemma SendsTellNothing(p: Pipe, rb: Batch)
    ensures DoSend(p, rb).out == p.out && DoTrySend(p, rb).out == p.out
  { }

  lemma PostsTellNothing(p: Pipe, k: nat)
    requires k < |p.unposted|
    ensures DoPost(p, k).out == p.out
  { }

  // ------------------------------------------------------------------ gap signalling

  /** The drop with index `d` is counted by a Skipped message among `out`. */
  predicate Reported(out: seq<Emission>, d: nat) {
    exists j | 0 <= j < |out| :: out[j].SkippedOver? && d in out[j].indices
  }

  /** No batch sent after a dropped one is delivered before a Skipped message that counts
      the drop, and delivered batches come out in the order they were sent. */
  ghost predicate GapsSignalled(p: Pipe) {
    && (forall k, d | 0 <= k < |p.out| && p.out[k].Delivered? && 0 <= d < p.out[k].index && d < |p.sent| ::
          p.sent[d].Dropped? ==> Reported(p.out[..k], d))
    && InOrder(p)
  }

  ghost predicate InOrder(p: Pipe) {
    && (forall k | 0 <= k < |p.out| && p.out[k].Delivered? ::
          p.out[k].index < |p.sent| && p.sent[p.out[k].index].Accepted?)
    && (forall j, k | 0 <= j < k < |p.out| && p.out[j].Delivered? && p.out[k].Delivered? ::
          p.out[j].index < p.out[k].index)
  }

  function Counted(c: Control): seq<nat> {
    match c
    case DrainData(counted) => counted
    case DrainCommands(counted) => counted
    case _ => []
  }

  /** What holds of the order of the queues in every run, atomic sends or not. */
  ghost predicate OrderInv(p: Pipe) {
    && InOrder(p)
    && (forall i | 0 <= i < |p.data| :: p.data[i] < |p.sent| && p.sent[p.data[i]].Accepted?)
    && (forall i, j | 0 <= i < j < |p.data| :: p.data[i] < p.data[j])
    && (forall k, i | 0 <= k < |p.out| && p.out[k].Delivered? && 0 <= i < |p.data| ::
          p.out[k].index < p.data[i])
    && |p.data| <= p.capacity
  }

  /** A drop the client has not been told about yet. */
  predicate Owed(p: Pipe, d: nat) {
    d < |p.sent| && p.sent[d].Dropped? && !Reported(p.out, d)
  }

  lemma ReportedGrows(out: seq<Emission>, e: Emission, d: nat)
    ensures Reported(out, d) ==> Reported(out + [e], d)
    ensures e.SkippedOver? && d in e.indices ==> Reported(out + [e], d)
    ensures Reported(out + [e], d) ==> Reported(out, d) || (e.SkippedOver? && d in e.indices)
  {
    if Reported(out, d) {
      var j :| 0 <= j < |out| && out[j].SkippedOver? && d in out[j].indices;
      assert (out + [e])[j] == out[j];
    }
    if e.SkippedOver? && d in e.indices {
      assert (out + [e])[|out|] == e;
    }
  }

  lemma OrderKept(p: Pipe, s: Step)
    requires OrderInv(p) && Enabled(p, s)
    ensures OrderInv(Apply(p, s))
  {
    match s
    case Send(rb) => OrderKeptByTry(p, rb);
    case TrySend(rb) => OrderKeptByTry(p, rb);
    case PollData => OrderKeptByData(p);
    case _ =>
  }

  lemma OrderKeptByTry(p: Pipe, rb: Batch)
    requires OrderInv(p)
    ensures OrderInv(DoTrySend(p, rb)) && OrderInv(DoSend(p, rb))
  {
  }

  lemma OrderKeptByData(p: Pipe)
    requires OrderInv(p) && Enabled(p, PollData)
    ensures OrderInv(DoPollData(p))
  {
  }

  /** Emitting one more message keeps the earlier ones well placed. */
  lemma SignalledExtends(p: Pipe, q: Pipe, e: Emission)
    requires GapsSignalled(p) && q.sent == p.sent && q.out == p.out + [e] && InOrder(q)
    requires e.Delivered? ==> forall d | 0 <= d < e.index && d < |p.sent| && p.sent[d].Dropped? :: Reported(p.out, d)
    ensures GapsSignalled(q)
  {
    forall k, d | 0 <= k < |q.out| && q.out[k].Delivered? && 0 <= d < q.out[k].index && d < |q.sent| && q.sent[d].Dropped?
      ensures Reported(q.out[..k], d)
    {
      if k < |p.out| {
        assert q.out[..k] == p.out[..k];
      } else {
        assert q.out[..k] == p.out;
      }
    }
  }

  /** A step takes nothing back: a gap that was not signalled stays so. */
  lemma SignalledBefore(p: Pipe, s: Step)
    requires OrderInv(p) && Enabled(p, s) && GapsSignalled(Apply(p, s))
    ensures GapsSignalled(p)
  {
    var q := Apply(p, s);
    forall k, d | 0 <= k < |p.out| && p.out[k].Delivered? && 0 <= d < p.out[k].index && d < |p.sent| && p.sent[d].Dropped?
      ensures Reported(p.out[..k], d)
    {
      assert q.out[k] == p.out[k] && q.out[..k] == p.out[..k] && q.sent[d] == p.sent[d];
    }
  }

  /** The drops a poll could not know of: those whose command was not posted when the poll found
      the command queue empty. */
  ghost function Missed(p: Pipe, s: Step, missed: set<nat>): set<nat> {
    if s.PollCommand? && p.control.Idle? && p.commands == [] then set d | d in p.unposted else missed
  }

  /** No batch is taken that lies behind a drop its poll could not know of. */
  ghost predicate NoneOvertaken(p: Pipe, steps: seq<Step>, missed: set<nat>)
    requires Runs(p, steps)
    decreases |steps|
  {
    steps == [] ||
    (&& (steps[0].PollData? && p.control.CommandPending? && p.data != [] ==> forall d | d in missed :: p.data[0] <= d)
     && NoneOvertaken(Apply(p, steps[0]), steps[1..], Missed(p, steps[0], missed)))
  }

  /** A receiver about to take data owes the client the drops it missed, and beyond them only
      drops that lie behind all that is queued, in a queue that has stayed full. */
  ghost predicate Facing(p: Pipe, missed: set<nat>) {
    p.control.CommandPending? ==>
      && (forall d | d in missed :: Owed(p, d))
      && (forall d | Owed(p, d) && d !in missed :: |p.data| >= p.capacity && forall i | 0 <= i < |p.data| :: p.data[i] < d)
  }

  ghost predicate Tracked(p: Pipe, missed: set<nat>) {
    && OrderInv(p) && Accounted(p) && Conserved(p) && Facing(p, missed)
    && forall d | d in p.unposted :: d < |p.sent| && p.sent[d].Dropped?
  }

  /** What is in one place is not in another: a drop on its way has not been reported. */
  lemma {:induction false} ReportedOccurs(out: seq<Emission>, d: nat)
    requires Reported(out, d)
    ensures Times(Indices(out), d) > 0
  {
    var rest, last := out[..|out| - 1], out[|out| - 1];
    assert out == rest + [last];
    ReportedGrows(rest, last, d);
    if Reported(rest, d) { ReportedOccurs(rest, d); }
    TimesAppend(Indices(rest), match last { case Delivered(i) => [i] case SkippedOver(them) => them }, d);
  }

  lemma UnpostedOwed(p: Pipe, missed: set<nat>)
    requires Tracked(p, missed)
    ensures forall d | d in p.unposted :: Owed(p, d)
  {
    forall d | d in p.unposted ensures Owed(p, d) {
      assert Held(p, d) == 1;
      var k :| 0 <= k < |p.unposted| && p.unposted[k] == d;
      EachOccurs(p.unposted);
      if Reported(p.out, d) { ReportedOccurs(p.out, d); }
    }
  }

  lemma TrackedStep(p: Pipe, s: Step, missed: set<nat>)
    requires Tracked(p, missed) && Enabled(p, s)
    ensures Tracked(Apply(p, s), Missed(p, s, missed))
  {
    var q := Apply(p, s);
    OrderKept(p, s);
    AccountedStep(p, s);
    forall i: nat ensures Held(q, i) == if i < |q.sent| then 1 else 0 { ConservedStep(p, s, i); }
    UnpostedOwed(p, missed);
    hide OrderInv; hide Conserved; hide Held;
    FacingStep(p, s, missed);
  }

  lemma FacingStep(p: Pipe, s: Step, missed: set<nat>)
    requires OrderInv(p) && Accounted(p) && Facing(p, missed) && Enabled(p, s)
    requires forall d | d in p.unposted :: Owed(p, d)
    ensures Facing(Apply(p, s), Missed(p, s, missed))
  {
    var q := Apply(p, s);
    if q.control.CommandPending? && p.control.CommandPending? {
      assert q.out == p.out;
      forall d | d in missed ensures Owed(q, d) { assert Owed(p, d); }
      forall d: nat | Owed(q, d) && d !in missed
        ensures |q.data| >= q.capacity && forall i | 0 <= i < |q.data| :: q.data[i] < d
      {
        if d < |p.sent| { assert Owed(p, d); }
      }
    }
  }

  /** Taking a batch signals its gaps exactly when it lies behind no missed drop. */
  lemma DeliverExact(p: Pipe, missed: set<nat>)
    requires Tracked(p, missed) && GapsSignalled(p) && p.control.CommandPending? && p.data != []
    ensures GapsSignalled(DoPollData(p)) <==> forall d | d in missed :: p.data[0] <= d
  {
    OrderKept(p, PollData);
    var q, e := DoPollData(p), Delivered(p.data[0]);
    assert q.out[|p.out|] == e && q.out[..|p.out|] == p.out;
    if forall d | d in missed :: p.data[0] <= d {
      forall d | 0 <= d < e.index && d < |p.sent| && p.sent[d].Dropped? ensures Reported(p.out, d) {
        assert Owed(p, d) || Reported(p.out, d);
      }
      SignalledExtends(p, q, e);
    } else {
      var d :| d in missed && d < p.data[0];
      assert Owed(p, d);
    }
  }

  lemma StepExact(p: Pipe, s: Step, missed: set<nat>)
    requires Tracked(p, missed) && Enabled(p, s)
    ensures GapsSignalled(Apply(p, s)) <==>
            && GapsSignalled(p)
            && (s.PollData? && p.control.CommandPending? && p.data != [] ==> forall d | d in missed :: p.data[0] <= d)
  {
    if GapsSignalled(Apply(p, s)) { SignalledBefore(p, s); }
    if GapsSignalled(p) {
      if s.PollData? && p.control.CommandPending? && p.data != [] {
        DeliverExact(p, missed);
      } else {
        SilentStep(p, s);
      }
    }
  }

  lemma SilentStep(p: Pipe, s: Step)
    requires OrderInv(p) && GapsSignalled(p) && Enabled(p, s)
    requires !(s.PollData? && p.control.CommandPending? && p.data != [])
    ensures GapsSignalled(Apply(p, s))
  {
    OrderKept(p, s);
    var q := Apply(p, s);
    if q.out == p.out {
      forall k, d | 0 <= k < |q.out| && q.out[k].Delivered? && 0 <= d < q.out[k].index && d < |q.sent| && q.sent[d].Dropped?
        ensures Reported(q.out[..k], d)
      {
        assert p.out[k].index < |p.sent| && p.sent[d] == q.sent[d];
      }
    } else {
      SignalledExtends(p, q, q.out[|p.out|]);
    }
  }

  lemma {:induction false} SignalledExact(p: Pipe, steps: seq<Step>, missed: set<nat>)
    requires Tracked(p, missed) && Runs(p, steps)
    ensures GapsSignalled(After(p, steps)) <==> GapsSignalled(p) && NoneOvertaken(p, steps, missed)
    decreases |steps|
  {
    if steps != [] {
      StepExact(p, steps[0], missed);
      TrackedStep(p, steps[0], missed);
      hide Tracked; hide GapsSignalled; hide Apply; hide Enabled; hide Missed;
      SignalledExact(Apply(p, steps[0]), steps[1..], Missed(p, steps[0], missed));
    }
  }

  /** For every run, of any number of senders whose sends are cut in two anywhere: gaps are
      signalled before anything sent after them is delivered exactly when no poll takes a batch
      from behind a drop that was not posted when the poll found no command. */
  lemma GapSignallingExact(capacity: nat, steps: seq<Step>)
    requires Runs(Init(capacity), steps)
    ensures GapsSignalled(After(Init(capacity), steps)) <==> NoneOvertaken(Init(capacity), steps, {})
  {
    SignalledExact(Init(capacity), steps, {});
  }

  predicate IsPoll(s: Step) {
    s.PollCommand? || s.PollData? || s.StopDraining?
  }

  /** No poll step falls between the two halves of a send; senders may interleave freely. */
  ghost predicate NoPollWithin(p: Pipe, steps: seq<Step>)
    requires Runs(p, steps)
    decreases |steps|
  {
    steps == [] || ((IsPoll(steps[0]) ==> p.unposted == []) && NoPollWithin(Apply(p, steps[0]), steps[1..]))
  }

  lemma {:induction false} NothingMissed(p: Pipe, steps: seq<Step>)
    requires Runs(p, steps) && NoPollWithin(p, steps)
    ensures NoneOvertaken(p, steps, {})
    decreases |steps|
  {
    if steps != [] {
      assert Missed(p, steps[0], {}) == {};
      NothingMissed(Apply(p, steps[0]), steps[1..]);
    }
  }

  /** In every run without a poll step between the two halves of a send, however senders and
      single `poll_recv` calls interleave otherwise, gaps are signalled. */
  lemma GapSignalling(capacity: nat, steps: seq<Step>)
    requires Runs(Init(capacity), steps) && NoPollWithin(Init(capacity), steps)
    ensures GapsSignalled(After(Init(capacity), steps))
  {
    NothingMissed(Init(capacity), steps);
    GapSignallingExact(capacity, steps);
  }

  /** Whole sends leave nothing for a poll to fall between. */
  lemma {:induction false} AtomicSendsHaveNoPollWithin(p: Pipe, steps: seq<Step>)
    requires Runs(p, steps) && AtomicSends(steps) && p.unposted == []
    ensures NoPollWithin(p, steps)
    decreases |steps|
  {
    if steps != [] {
      assert steps[0] in steps;
      AtomicSendsHaveNoPollWithin(Apply(p, steps[0]), steps[1..]);
    }
  }

  /** Order alone needs no assumption on the senders. */
  lemma {:induction false} DeliveredInOrder(p: Pipe, steps: seq<Step>)
    requires OrderInv(p) && Runs(p, steps)
    ensures OrderInv(After(p, steps))
    decreases |steps|
  {
    if steps != [] {
      OrderKept(p, steps[0]);
      DeliveredInOrder(Apply(p, steps[0]), steps[1..]);
    }
  }

  // ------------------------------------------- sends that are overtaken by the receiver

  /** `n` batches offered one after the other by a sender that is then overtaken. */
  function Fill(n: nat): seq<Step> {
    if n == 0 then [] else Fill(n - 1) + [TrySend(Batch(0, 1))]
  }

  /** `n` polls that each find no command and take one batch. */
  function Drain(n: nat): seq<Step> {
    if n == 0 then [] else Drain(n - 1) + [PollCommand, PollData]
  }

  function Upto(lo: nat, hi: nat): seq<nat>
    requires lo <= hi
  {
    seq(hi - lo, i requires 0 <= i => lo + i)
  }

  lemma {:induction false} Appended(p: Pipe, xs: seq<Step>, ys: seq<Step>)
    requires Runs(p, xs) && Runs(After(p, xs), ys)
    ensures Runs(p, xs + ys) && After(p, xs + ys) == After(After(p, xs), ys)
    decreases |ys|
  {
    if ys == [] {
      assert xs + ys == xs;
    } else {
      RunsAppend(p, xs, ys[0]);
      Appended(p, xs + [ys[0]], ys[1..]);
      assert xs + [ys[0]] + ys[1..] == xs + ys;
    }
  }

  lemma {:induction false} FillReaches(c: nat, n: nat)
    requires n <= c
    ensures Runs(Init(c), Fill(n))
    ensures After(Init(c), Fill(n)) ==
            Init(c).(sent := seq(n, i => Accepted(Batch(0, 1))), data := Upto(0, n))
  {
    if n > 0 {
      FillReaches(c, n - 1);
      RunsAppend(Init(c), Fill(n - 1), TrySend(Batch(0, 1)));
      assert Upto(0, n - 1) + [n - 1] == Upto(0, n);
    } else {
      assert Upto(0, 0) == [];
    }
  }

  lemma {:induction false} DrainReaches(p: Pipe, n: nat)
    requires p.control.Idle? && p.commands == [] && n <= |p.data|
    ensures Runs(p, Drain(n))
    ensures var q := After(p, Drain(n));
            q.data == p.data[n..] && q.(data := [], out := []) == p.(data := [], out := [])
  {
    if n > 0 {
      DrainReaches(p, n - 1);
      var q := After(p, Drain(n - 1));
      RunsAppend(p, Drain(n - 1), PollCommand);
      RunsAppend(p, Drain(n - 1) + [PollCommand], PollData);
      assert Drain(n - 1) + [PollCommand] + [PollData] == Drain(n);
      assert q.data[1..] == p.data[n..];
    }
  }

  /** The receiver empties the queue and checks for commands again before the sender of a
      dropped batch gets round to posting its command; the sender's next batch then comes out
      ahead of the gap it lies behind. */
  function Overtaking(c: nat): seq<Step> {
    Fill(c) + [TrySend(Batch(0, 1))] + Drain(c) + OVERTAKE
  }

  /** The state in which a dropped batch's command is still on its way. */
  ghost predicate CommandOnItsWay(p: Pipe, d: nat) {
    && p.control.Idle? && p.data == [] && p.commands == [] && p.unposted == [d]
    && d < |p.sent| && p.sent[d].Dropped? && p.capacity >= 1
    && forall e | e in p.out :: e.Delivered?
  }

  lemma BeforeTheGap(c: nat)
    requires c >= 1
    ensures var xs := Fill(c) + [TrySend(Batch(0, 1))] + Drain(c);
            Runs(Init(c), xs) && CommandOnItsWay(After(Init(c), xs), c)
  {
    var b := Batch(0, 1);
    FillReaches(c, c);
    RunsAppend(Init(c), Fill(c), TrySend(b));
    var full := After(Init(c), Fill(c) + [TrySend(b)]);
    DrainReaches(full, c);
    Appended(Init(c), Fill(c) + [TrySend(b)], Drain(c));
    OnlyTriesAndPolls(c, c);
    NothingReported(Init(c), Fill(c) + [TrySend(b)] + Drain(c));
  }

  /** Check for a command, post it, send again, take the new batch. */
  const OVERTAKE := [PollCommand, Post(0), TrySend(Batch(0, 1)), PollData]

  lemma OvertakeRun(p: Pipe, d: nat)
    requires CommandOnItsWay(p, d)
    ensures Runs(p, OVERTAKE) && !GapsSignalled(After(p, OVERTAKE))
  {
    var p1 := Apply(p, OVERTAKE[0]);
    var p2 := Apply(p1, OVERTAKE[1]);
    var p3 := Apply(p2, OVERTAKE[2]);
    var q := Apply(p3, OVERTAKE[3]);
    assert OVERTAKE[1..][1..][1..][1..] == [];
    assert Runs(p3, OVERTAKE[1..][1..][1..]);
    assert After(p, OVERTAKE) == q;
    var k := |p.out|;
    assert q.out == p.out + [Delivered(|p.sent|)];
    assert q.out[..k] == p.out;
    assert forall j | 0 <= j < k :: p.out[j] in p.out;
    assert q.sent[d].Dropped? && !Reported(q.out[..k], d);
  }

  lemma OvertakenSendHidesGap(c: nat)
    requires c >= 1
    ensures Runs(Init(c), Overtaking(c)) && !GapsSignalled(After(Init(c), Overtaking(c)))
  {
    var xs := Fill(c) + [TrySend(Batch(0, 1))] + Drain(c);
    BeforeTheGap(c);
    OvertakeRun(After(Init(c), xs), c);
    Appended(Init(c), xs, OVERTAKE);
  }

  lemma {:induction false} OnlyTriesAndPolls(m: nat, n: nat)
    ensures forall s | s in Fill(m) + [TrySend(Batch(0, 1))] + Drain(n) :: s.TrySend? || s.PollCommand? || s.PollData?
  {
    if m > 0 { OnlyTriesAndPolls(m - 1, n); }
    else if n > 0 { OnlyTriesAndPolls(0, n - 1); }
  }

  /** Nothing is reported before a skip command has been received. */
  lemma {:induction false} NothingReported(p: Pipe, steps: seq<Step>)
    requires Runs(p, steps)
    requires p.commands == [] && (p.control.Idle? || p.control.CommandPending?)
    requires forall e | e in p.out :: e.Delivered?
    requires forall s | s in steps :: s.TrySend? || s.PollCommand? || s.PollData?
    ensures forall e | e in After(p, steps).out :: e.Delivered?
    decreases |steps|
  {
    if steps != [] {
      assert steps[0] in steps;
      NothingReported(Apply(p, steps[0]), steps[1..]);
    }
  }

  // ------------------------------------------------------------------- conservation

  function Indices(out: seq<Emission>): seq<nat> {
    if out == [] then []
    else Indices(out[..|out| - 1]) +
         match out[|out| - 1] { case Delivered(i) => [i] case SkippedOver(them) => them }
  }

  /** How often an index occurs in a queue. */
  ghost function Times(xs: seq<nat>, i: nat): nat {
    multiset(xs)[i]
  }

  lemma TimesAppend(xs: seq<nat>, ys: seq<nat>, i: nat)
    ensures Times(xs + ys, i) == Times(xs, i) + Times(ys, i)
  {
  }

  lemma TimesSplit(xs: seq<nat>, k: nat, i: nat)
    requires k < |xs|
    ensures Times(xs, i) == Times(xs[..k], i) + Times([xs[k]], i) + Times(xs[k + 1..], i)
  {
    assert xs == xs[..k] + ([xs[k]] + xs[k + 1..]);
    TimesAppend(xs[..k], [xs[k]] + xs[k + 1..], i);
    TimesAppend([xs[k]], xs[k + 1..], i);
  }

  /** In how many places the batch with index `i` is: emitted, being counted, queued,
      dropped and posted, or dropped and not yet posted. */
  ghost function Held(p: Pipe, i: nat): nat {
    Times(Indices(p.out), i) + Times(Counted(p.control), i) + Times(p.data, i)
    + Times(p.commands, i) + Times(p.unposted, i)
  }

  /** Every batch offered is in exactly one place, and nothing else is anywhere. */
  ghost predicate Conserved(p: Pipe) {
    forall i: nat :: Held(p, i) == if i < |p.sent| then 1 else 0
  }

  lemma ConservedStep(p: Pipe, s: Step, i: nat)
    requires Enabled(p, s)
    ensures Held(Apply(p, s), i) == Held(p, i) + if |p.sent| <= i < |Apply(p, s).sent| then 1 else 0
  {
    hide Times;
    match s
    case Send(rb) => HeldAfterTry(p, rb, i); HeldAfterPost(DoTrySend(p, rb), |p.unposted|, i);
    case TrySend(rb) => HeldAfterTry(p, rb, i);
    case Post(k) => HeldAfterPost(p, k, i);
    case _ => HeldAfterPoll(p, s, i);
  }

  lemma HeldAfterTry(p: Pipe, rb: Batch, i: nat)
    ensures Held(DoTrySend(p, rb), i) == Held(p, i) + if i == |p.sent| then 1 else 0
  {
    TimesAppend(p.data, [|p.sent|], i);
    TimesAppend(p.unposted, [|p.sent|], i);
  }

  lemma HeldAfterPost(p: Pipe, k: nat, i: nat)
    ensures k < |p.unposted| ==> Held(DoPost(p, k), i) == Held(p, i)
  {
    hide Times;
    if k < |p.unposted| {
      TimesSplit(p.unposted, k, i);
      TimesAppend(p.unposted[..k], p.unposted[k + 1..], i);
      TimesAppend(p.commands, [p.unposted[k]], i);
    }
  }

  lemma HeldAfterPoll(p: Pipe, s: Step, i: nat)
    requires Enabled(p, s) && (s.PollCommand? || s.PollData? || s.StopDraining?)
    ensures Held(Apply(p, s), i) == Held(p, i)
  {
    hide Times;
    var counted := Counted(p.control);
    EmittedOnce(p, Apply(p, s));
    NoTimes(i);
    TimesAppend(Indices(p.out), counted, i);
    if s.PollCommand? && p.commands != [] {
      TimesSplit(p.commands, 0, i);
      TimesAppend(counted, [p.commands[0]], i);
    } else if s.PollData? && p.data != [] {
      TimesSplit(p.data, 0, i);
      TimesAppend(counted, [p.data[0]], i);
      TimesAppend(Indices(p.out), [p.data[0]], i);
    }
  }

  lemma NoTimes(i: nat)
    ensures Times([], i) == 0
    ensures forall xs: seq<nat> | xs != [] :: xs[..0] == []
  {
  }

  lemma EmittedOnce(p: Pipe, q: Pipe)
    requires q.out == p.out || (|q.out| == |p.out| + 1 && q.out[..|p.out|] == p.out)
    ensures |q.out| > |p.out| ==>
              Indices(q.out) == Indices(p.out) +
              match q.out[|p.out|] { case Delivered(i) => [i] case SkippedOver(them) => them }
  {
  }

  lemma {:induction false} ConservedOverRun(p: Pipe, steps: seq<Step>)
    requires Conserved(p) && Runs(p, steps)
    ensures Conserved(After(p, steps))
    decreases |steps|
  {
    hide Held;
    if steps != [] {
      forall i: nat ensures Held(Apply(p, steps[0]), i) == if i < |Apply(p, steps[0]).sent| then 1 else 0 {
        ConservedStep(p, steps[0], i);
      }
      ConservedOverRun(Apply(p, steps[0]), steps[1..]);
    }
  }

  /** Rows of the batches at the given indices. */
  function Rows(sent: seq<Sent>, at: seq<nat>): nat {
    if at == [] then 0 else (if at[0] < |sent| then sent[at[0]].rb.rows else 0) + Rows(sent, at[1..])
  }

  lemma {:induction false} RowsAppend(sent: seq<Sent>, xs: seq<nat>, ys: seq<nat>)
    ensures Rows(sent, xs + ys) == Rows(sent, xs) + Rows(sent, ys)
  {
    if xs == [] {
      assert xs + ys == ys;
    } else {
      assert (xs + ys)[1..] == xs[1..] + ys;
      RowsAppend(sent, xs[1..], ys);
    }
  }

  lemma EachOccurs(xs: seq<nat>)
    ensures forall k | 0 <= k < |xs| :: Times(xs, xs[k]) > 0
  {
    assert forall k | 0 <= k < |xs| :: xs[k] in multiset(xs);
  }

  lemma {:induction false} RowsOfSame(sent: seq<Sent>, xs: seq<nat>, ys: seq<nat>)
    requires forall i: nat :: Times(xs, i) == Times(ys, i)
    ensures Rows(sent, xs) == Rows(sent, ys)
    decreases |xs|
  {
    if xs == [] {
      EachOccurs(ys);
    } else {
      assert xs[0] in multiset(xs) && Times(ys, xs[0]) > 0;
      var k :| 0 <= k < |ys| && ys[k] == xs[0];
      var ys' := ys[..k] + ys[k + 1..];
      forall i: nat ensures Times(xs[1..], i) == Times(ys', i) {
        TimesSplit(xs, 0, i);
        TimesSplit(ys, k, i);
        TimesAppend(ys[..k], ys[k + 1..], i);
      }
      RowsOfSame(sent, xs[1..], ys');
      RowsAppend(sent, ys[..k], ys[k + 1..]);
      RowsAppend(sent, ys[..k], ys[k..]);
      assert ys == ys[..k] + ys[k..] && ys[k..][1..] == ys[k + 1..];
    }
  }

  /** Every place a batch can be. */
  function Places(p: Pipe): seq<nat> {
    Indices(p.out) + (Counted(p.control) + (p.data + (p.commands + p.unposted)))
  }

  lemma TimesInPlaces(p: Pipe, i: nat)
    ensures Times(Places(p), i) == Held(p, i)
  {
    hide Times;
    TimesAppend(p.commands, p.unposted, i);
    TimesAppend(p.data, p.commands + p.unposted, i);
    TimesAppend(Counted(p.control), p.data + (p.commands + p.unposted), i);
    TimesAppend(Indices(p.out), Counted(p.control) + (p.data + (p.commands + p.unposted)), i);
  }

  lemma {:induction false} TimesUpto(n: nat, i: nat)
    ensures Times(Upto(0, n), i) == if i < n then 1 else 0
  {
    if n > 0 {
      assert Upto(0, n) == Upto(0, n - 1) + [n - 1];
      TimesUpto(n - 1, i);
      TimesAppend(Upto(0, n - 1), [n - 1], i);
    }
  }

  /** In every run: each batch offered is in exactly one place, so the rows offered are the
      rows delivered, plus the rows reported skipped, plus the rows still held. */
  lemma RowsConserved(c: nat, steps: seq<Step>)
    requires Runs(Init(c), steps)
    ensures Conserved(After(Init(c), steps))
    ensures var p := After(Init(c), steps);
            Rows(p.sent, Upto(0, |p.sent|)) ==
            Rows(p.sent, Indices(p.out)) + Rows(p.sent, Counted(p.control)) + Rows(p.sent, p.data)
            + Rows(p.sent, p.commands) + Rows(p.sent, p.unposted)
  {
    ConservedOverRun(Init(c), steps);
    var p := After(Init(c), steps);
    forall i: nat ensures Times(Places(p), i) == Times(Upto(0, |p.sent|), i) {
      TimesInPlaces(p, i);
      TimesUpto(|p.sent|, i);
      assert Held(p, i) == if i < |p.sent| then 1 else 0;
    }
    RowsOfSame(p.sent, Places(p), Upto(0, |p.sent|));
    RowsAppend(p.sent, p.commands, p.unposted);
    RowsAppend(p.sent, p.data, p.commands + p.unposted);
    RowsAppend(p.sent, Counted(p.control), p.data + (p.commands + p.unposted));
    RowsAppend(p.sent, Indices(p.out), Counted(p.control) + (p.data + (p.commands + p.unposted)));
  }

  // ------------------------------------- what a poll promises when sends may be overtaken

  ghost predicate Accounted(p: Pipe) {
    && (forall d | Owed(p, d) :: d in p.unposted || d in p.commands || d in Counted(p.control))
    && (p.control.Idle? || p.control.CommandPending? ==> Counted(p.control) == [])
  }

  lemma AccountedStep(p: Pipe, s: Step)
    requires Accounted(p) && Enabled(p, s)
    ensures Accounted(Apply(p, s))
  {
    var q := Apply(p, s);
    forall d | Owed(q, d) ensures d in q.unposted || d in q.commands || d in Counted(q.control) {
      if d == |p.sent| {
        if s.Send? { assert d == q.commands[|q.commands| - 1]; } else { assert d == q.unposted[|q.unposted| - 1]; }
      } else {
        if |q.out| > |p.out| { ReportedGrows(p.out, q.out[|p.out|], d); assert q.out == p.out + [q.out[|p.out|]]; }
        assert Owed(p, d);
        if s.Post? && d in p.unposted {
          assert p.unposted == p.unposted[..s.k] + [p.unposted[s.k]] + p.unposted[s.k + 1..];
          assert d in p.unposted[..s.k] || d == p.unposted[s.k] || d in p.unposted[s.k + 1..];
        }
        if s.PollCommand? && d in p.commands {
          assert p.commands == [p.commands[0]] + p.commands[1..];
        }
      }
    }
  }

  lemma {:induction false} AccountedOverRun(p: Pipe, steps: seq<Step>)
    requires Accounted(p) && Runs(p, steps)
    ensures Accounted(After(p, steps))
    decreases |steps|
  {
    if steps != [] {
      AccountedStep(p, steps[0]);
      AccountedOverRun(Apply(p, steps[0]), steps[1..]);
    }
  }

  /** In every run, overtaken sends or not: a poll that finds no command and goes on to the
      data queue has already reported every drop whose command was posted before it looked. */
  lemma PostedDropsComeFirst(c: nat, steps: seq<Step>, d: nat)
    requires Runs(Init(c), steps) && After(Init(c), steps).control.Idle?
    requires var p := After(Init(c), steps);
             DoPollCommand(p).control.CommandPending? && d < |p.sent| && p.sent[d].Dropped? && d !in p.unposted
    ensures Reported(After(Init(c), steps).out, d)
  {
    AccountedOverRun(Init(c), steps);
    assert Owed(After(Init(c), steps), d) || Reported(After(Init(c), steps).out, d);
  }
}

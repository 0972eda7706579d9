/** The live tail itself: channels, their two ends, and the registry that fans a batch out to
    every pipe of a stream.  Each channel carries its run of `LiveTailMachine` as ghost state,
    so what is proved of every run of the machine holds of every channel. */
module LiveTail {
  import opened LiveTailMachine

  datatype Option<T> = None | Some(value: T)

  datatype Message = Record(rb: Batch) | Skipped(rows: nat)

  datatype Poll = Ready(item: Option<Message>) | Pending

  /** The batches, and their row counts, that a queue of indices stands for. */
  ghost function BatchesAt(sent: seq<Sent>, at: seq<nat>): seq<Batch>
    requires forall k | 0 <= k < |at| :: at[k] < |sent|
  {
    seq(|at|, k requires 0 <= k < |at| => sent[at[k]].rb)
  }

  ghost function CountsAt(sent: seq<Sent>, at: seq<nat>): seq<nat>
    requires forall k | 0 <= k < |at| :: at[k] < |sent|
  {
    seq(|at|, k requires 0 <= k < |at| => sent[at[k]].rb.rows)
  }

  /** What the client sees of an emission of the machine. */
  ghost function MessageOf(sent: seq<Sent>, e: Emission): Message
    requires e.Delivered? ==> e.index < |sent|
  {
    match e
    case Delivered(i) => Record(sent[i].rb)
    case SkippedOver(at) => Skipped(Rows(sent, at))
  }

  function Sum(counts: seq<nat>): nat {
    if counts == [] then 0 else counts[0] + Sum(counts[1..])
  }

  function RowsIn(batches: seq<Batch>): nat {
    if batches == [] then 0 else batches[0].rows + RowsIn(batches[1..])
  }

  lemma {:induction false} SumAdds(xs: seq<nat>, ys: seq<nat>)
    ensures Sum(xs + ys) == Sum(xs) + Sum(ys) && forall x: nat :: Sum([x]) == x
  {
    if xs == [] {
      assert xs + ys == ys;
      forall x: nat ensures Sum([x]) == x { assert [x][1..] == []; }
    } else {
      assert (xs + ys)[1..] == xs[1..] + ys;
      SumAdds(xs[1..], ys);
    }
  }

  lemma {:induction false} RowsInIsSum(batches: seq<Batch>)
    ensures RowsIn(batches) == Sum(seq(|batches|, i requires 0 <= i < |batches| => batches[i].rows))
  {
    if batches != [] {
      RowsInIsSum(batches[1..]);
      var counts := seq(|batches|, i requires 0 <= i < |batches| => batches[i].rows);
      assert counts[1..] == seq(|batches| - 1, i requires 0 <= i < |batches| - 1 => batches[1..][i].rows);
    }
  }

  class Channel {
    const capacity: nat
    var data: seq<Batch>
    var commands: seq<nat>
    var senderAlive: bool
    var receiverAlive: bool
    ghost var pipe: Pipe
    ghost var steps: seq<Step>

    ghost predicate Mirrors(p: Pipe, run: seq<Step>)
      reads this`data, this`commands
    {
      && Runs(Init(capacity), run) && After(Init(capacity), run) == p && AtomicSends(run)
      && (forall k | 0 <= k < |p.data| :: p.data[k] < |p.sent|)
      && (forall k | 0 <= k < |p.commands| :: p.commands[k] < |p.sent|)
      && data == BatchesAt(p.sent, p.data) && commands == CountsAt(p.sent, p.commands)
      && p.capacity == capacity
    }

    ghost predicate Valid()
      reads this`data, this`commands, this`pipe, this`steps
    {
      Mirrors(pipe, steps) && pipe.control.Idle? && pipe.unposted == []
    }

    constructor (capacity: nat)
      ensures Valid() && this.capacity == capacity && senderAlive && receiverAlive
      ensures data == [] && commands == [] && pipe == Init(capacity)
    {
      this.capacity := capacity;
      data, commands, senderAlive, receiverAlive := [], [], true, true;
      pipe, steps := Init(capacity), [];
    }

    /** `SenderPipe::send`: a full queue turns the batch into a skip command, a closed one
        swallows it. */
    method Send(rb: Batch)
      requires Valid()
      modifies this
      ensures Valid() && senderAlive == old(senderAlive) && receiverAlive == old(receiverAlive)
      ensures !receiverAlive ==> data == old(data) && commands == old(commands) && pipe == old(pipe)
      ensures receiverAlive ==> pipe == DoSend(old(pipe), rb) && steps == old(steps) + [Step.Send(rb)]
      ensures receiverAlive && |old(data)| < capacity ==>
                data == old(data) + [rb] && commands == old(commands)
      ensures receiverAlive && |old(data)| >= capacity ==>
                data == old(data) && commands == old(commands) + [rb.rows]
    {
      if receiverAlive {
        RunsAppend(Init(capacity), steps, Step.Send(rb));
        ghost var p := pipe;
        pipe, steps := DoSend(pipe, rb), steps + [Step.Send(rb)];
        if |data| < capacity {
          data := data + [rb];
        } else {
          commands := commands + [rb.rows];
        }
        assert data == BatchesAt(pipe.sent, pipe.data);
        assert commands == CountsAt(pipe.sent, pipe.commands);
      }
    }

    /** `ReceiverPipe::poll_next` with no sender interfering: a pending skip swallows all that
        is queued and reports it as one gap. */
    method PollNext() returns (r: Poll)
      requires Valid()
      modifies this`data, this`commands, this`pipe, this`steps
      ensures Valid() && old(steps) <= steps
      ensures old(commands) != [] ==>
                && r == Ready(Some(Skipped(Sum(old(commands)) + RowsIn(old(data)))))
                && data == [] && commands == []
      ensures old(commands) == [] && !senderAlive ==>
                r == Ready(None) && data == old(data) && commands == []
      ensures old(commands) == [] && senderAlive && old(data) != [] ==>
                r == Ready(Some(Record(old(data)[0]))) && data == old(data)[1..] && commands == []
      ensures old(commands) == [] && senderAlive && old(data) == [] ==>
                r == Pending && data == [] && commands == []
      ensures pipe.sent == old(pipe.sent)
      ensures if r.Ready? && r.item.Some?
              then exists e | pipe.out == old(pipe.out) + [e] ::
                     (e.Delivered? ==> e.index < |pipe.sent|) && MessageOf(pipe.sent, e) == r.item.value
              else pipe.out == old(pipe.out)
    {
      hide Runs; hide After; hide AtomicSends;
      if commands == [] {
        if !senderAlive {
          return Ready(None);
        }
        Advance(PollCommand, pipe);
        if data == [] {
          Advance(PollData, pipe);
          r := Pending;
        } else {
          r := Ready(Some(Record(data[0])));
          ghost var p := pipe;
          data := data[1..];
          Advance(PollData, p);
          assert pipe.out == old(pipe.out) + [Delivered(p.data[0])];
        }
        return;
      }
      ghost var first := pipe.commands[0];
      ghost var before := pipe;
      var rowCount := commands[0];
      commands := commands[1..];
      Advance(PollCommand, before);
      ghost var counted;
      rowCount, counted := DrainBatches(rowCount, [first]);
      rowCount, counted := DrainSkips(rowCount, counted);
      r := Ready(Some(Skipped(rowCount)));
    }

    /** The first drain loop of `poll_next`: once a skip command has been taken, every batch
        still queued joins the gap. */
    method DrainBatches(first: nat, ghost taken: seq<nat>) returns (rowCount: nat, ghost counted: seq<nat>)
      requires Mirrors(pipe, steps) && pipe.unposted == [] && pipe.control == DrainData(taken)
      requires first == Rows(pipe.sent, taken)
      modifies this`data, this`pipe, this`steps
      ensures Mirrors(pipe, steps) && pipe.unposted == [] && pipe.control == DrainCommands(counted)
      ensures old(steps) <= steps && pipe.sent == old(pipe.sent) && pipe.out == old(pipe.out) && data == []
      ensures rowCount == Rows(pipe.sent, counted) == first + RowsIn(old(data))
    {
      hide Runs; hide After; hide AtomicSends;
      rowCount, counted := first, taken;
      while data != []
        invariant Mirrors(pipe, steps) && pipe.unposted == [] && old(steps) <= steps
        invariant pipe.control == DrainData(counted) && pipe.sent == old(pipe.sent) && pipe.out == old(pipe.out)
        invariant rowCount == Rows(pipe.sent, counted)
        invariant rowCount + RowsIn(data) == first + RowsIn(old(data))
        decreases |data|
      {
        RowsAppend(pipe.sent, counted, [pipe.data[0]]);
        rowCount := rowCount + data[0].rows;
        counted := counted + [pipe.data[0]];
        ghost var before := pipe;
        data := data[1..];
        Advance(PollData, before);
      }
      Advance(PollData, pipe);
    }

    /** The second drain loop: every further skip command joins it too, and the gap is told. */
    method DrainSkips(first: nat, ghost taken: seq<nat>) returns (rowCount: nat, ghost counted: seq<nat>)
      requires Mirrors(pipe, steps) && pipe.unposted == [] && pipe.control == DrainCommands(taken)
      requires first == Rows(pipe.sent, taken)
      modifies this`commands, this`pipe, this`steps
      ensures Valid() && old(steps) <= steps && pipe.sent == old(pipe.sent) && commands == []
      ensures pipe.out == old(pipe.out) + [SkippedOver(counted)]
      ensures rowCount == Rows(pipe.sent, counted) == first + Sum(old(commands))
    {
      hide Runs; hide After; hide AtomicSends;
      rowCount, counted := first, taken;
      while commands != []
        invariant Mirrors(pipe, steps) && pipe.unposted == [] && old(steps) <= steps
        invariant pipe.control == DrainCommands(counted) && pipe.sent == old(pipe.sent) && pipe.out == old(pipe.out)
        invariant rowCount == Rows(pipe.sent, counted)
        invariant rowCount + Sum(commands) == first + Sum(old(commands))
        decreases |commands|
      {
        RowsAppend(pipe.sent, counted, [pipe.commands[0]]);
        rowCount := rowCount + commands[0];
        counted := counted + [pipe.commands[0]];
        ghost var before := pipe;
        commands := commands[1..];
        Advance(PollCommand, before);
      }
      Advance(PollCommand, pipe);
    }

    /** Ghost bookkeeping: the machine takes the step the queues have just taken. */
    ghost method Advance(s: Step, before: Pipe)
      requires pipe == before && Runs(Init(capacity), steps) && After(Init(capacity), steps) == pipe
      requires AtomicSends(steps) && Enabled(pipe, s) && (s.PollCommand? || s.PollData?)
      modifies this`pipe, this`steps
      ensures pipe == Apply(before, s) && steps == old(steps) + [s]
      ensures Runs(Init(capacity), steps) && After(Init(capacity), steps) == pipe && AtomicSends(steps)
    {
      RunsAppend(Init(capacity), steps, s);
      pipe, steps := Apply(pipe, s), steps + [s];
    }
  }

  /** What every run of the machine keeps, every channel keeps. */
  lemma ChannelSignalsGaps(channel: Channel)
    requires channel.Valid()
    ensures GapsSignalled(channel.pipe) && Conserved(channel.pipe)
  {
    AtomicSendsHaveNoPollWithin(Init(channel.capacity), channel.steps);
    GapSignalling(channel.capacity, channel.steps);
    RowsConserved(channel.capacity, channel.steps);
  }

  datatype SenderPipe = SenderPipe(id: string, channel: Channel)

  datatype ReceiverPipe = ReceiverPipe(id: string, stream: string, channel: Channel)

  /** The senders that `retain(|x| x.id != id)` keeps. */
  function WithoutId(pipes: seq<SenderPipe>, id: string): seq<SenderPipe> {
    if pipes == [] then []
    else (if pipes[0].id != id then [pipes[0]] else []) + WithoutId(pipes[1..], id)
  }

  /** Retaining keeps distinct channels distinct. */
  lemma {:induction false} RetainedPipes(pipes: seq<SenderPipe>, id: string)
    requires forall j, k | 0 <= j < k < |pipes| :: pipes[j].channel != pipes[k].channel
    ensures var kept := WithoutId(pipes, id);
            && (forall j, k | 0 <= j < k < |kept| :: kept[j].channel != kept[k].channel)
            && (forall k | 0 <= k < |kept| :: kept[k] in pipes && kept[k].id != id)
            && (forall k | 0 <= k < |pipes| && pipes[k].id != id :: pipes[k] in kept)
  {
    if pipes != [] {
      RetainedPipes(pipes[1..], id);
      var kept, rest := WithoutId(pipes, id), WithoutId(pipes[1..], id);
      forall k | 0 <= k < |rest| ensures rest[k].channel != pipes[0].channel {
        var i :| 0 <= i < |pipes[1..]| && pipes[1..][i] == rest[k];
        assert pipes[i + 1] == rest[k];
      }
      forall k | 0 <= k < |pipes| && pipes[k].id != id ensures pipes[k] in kept {
        if k > 0 { assert pipes[1..][k - 1] == pipes[k]; }
      }
    }
  }

  ghost function ChannelsOf(receivers: set<ReceiverPipe>): set<Channel> {
    set r | r in receivers :: r.channel
  }

  type Registry = map<string, seq<SenderPipe>>

  /** The receiver is where this sender's batches go. */
  ghost predicate Serves(s: SenderPipe, stream: string, r: ReceiverPipe) {
    r.channel == s.channel && r.stream == stream && r.id == s.id
  }

  ghost predicate HasReceiver(s: SenderPipe, stream: string, receivers: set<ReceiverPipe>) {
    exists r | r in receivers :: Serves(s, stream, r)
  }

  /** Every registered sender has a live receiver of the same stream and id; no two senders
      of a stream, and no two receivers, share a channel. */
  ghost predicate Served(pipes: Registry, receivers: set<ReceiverPipe>) {
    && (forall stream, k | stream in pipes && 0 <= k < |pipes[stream]| ::
          HasReceiver(pipes[stream][k], stream, receivers))
    && (forall stream, j, k | stream in pipes && 0 <= j < k < |pipes[stream]| ::
          pipes[stream][j].channel != pipes[stream][k].channel)
    && (forall q, r | q in receivers && r in receivers && q.channel == r.channel :: q == r)
  }

  /** The receiver still has a sender in the registry. */
  ghost predicate Registered(pipes: Registry, r: ReceiverPipe) {
    r.stream in pipes && exists k | 0 <= k < |pipes[r.stream]| :: pipes[r.stream][k].channel == r.channel
  }

  /** Two live receivers of one stream were given the same id. */
  predicate Twins(q: ReceiverPipe, r: ReceiverPipe) {
    q.stream == r.stream && q.id == r.id
  }

  function Added(pipes: Registry, s: SenderPipe, stream: string): Registry {
    pipes[stream := (if stream in pipes then pipes[stream] else []) + [s]]
  }

  function Without(pipes: Registry, r: ReceiverPipe): Registry {
    if r.stream in pipes then pipes[r.stream := WithoutId(pipes[r.stream], r.id)] else pipes
  }

  lemma AddedServed(pipes: Registry, receivers: set<ReceiverPipe>, r: ReceiverPipe)
    requires Served(pipes, receivers) && forall q | q in receivers :: q.channel != r.channel
    ensures Served(Added(pipes, SenderPipe(r.id, r.channel), r.stream), receivers + {r})
    ensures forall q | q in receivers ::
              Registered(Added(pipes, SenderPipe(r.id, r.channel), r.stream), q) <==> Registered(pipes, q)
    ensures Registered(Added(pipes, SenderPipe(r.id, r.channel), r.stream), r)
  {
    var before := if r.stream in pipes then pipes[r.stream] else [];
    var after: Registry := Added(pipes, SenderPipe(r.id, r.channel), r.stream);
    assert after[r.stream][|before|].channel == r.channel;
    forall t, k | t in after && 0 <= k < |after[t]|
      ensures HasReceiver(after[t][k], t, receivers + {r})
      ensures !(t == r.stream && k == |before|) ==> after[t][k].channel != r.channel
    {
      if t == r.stream && k == |before| {
        assert Serves(after[t][k], t, r);
      } else {
        assert t in pipes && after[t][k] == pipes[t][k];
        var q := OwnerOf(pipes, receivers, t, k);
      }
    }
    forall q | q in receivers ensures Registered(after, q) <==> Registered(pipes, q) {
      if Registered(pipes, q) {
        var k :| 0 <= k < |pipes[q.stream]| && pipes[q.stream][k].channel == q.channel;
        assert after[q.stream][k] == pipes[q.stream][k];
      }
    }
  }

  lemma OwnerOf(pipes: Registry, receivers: set<ReceiverPipe>, stream: string, k: nat) returns (r: ReceiverPipe)
    requires Served(pipes, receivers) && stream in pipes && k < |pipes[stream]|
    ensures r in receivers && Serves(pipes[stream][k], stream, r)
  {
    assert HasReceiver(pipes[stream][k], stream, receivers);
    r :| r in receivers && Serves(pipes[stream][k], stream, r);
  }

  /** The registered sender of a receiver has the receiver's id. */
  lemma SenderHasId(pipes: Registry, receivers: set<ReceiverPipe>, q: ReceiverPipe, k: nat)
    requires Served(pipes, receivers) && q in receivers && q.stream in pipes
    requires k < |pipes[q.stream]| && pipes[q.stream][k].channel == q.channel
    ensures pipes[q.stream][k].id == q.id
  {
    var r := OwnerOf(pipes, receivers, q.stream, k);
  }

  /** Dropping a receiver keeps the registry served, and unregisters exactly its twins. */
  lemma DroppedServed(pipes: Registry, receivers: set<ReceiverPipe>, r: ReceiverPipe)
    requires Served(pipes, receivers) && r in receivers
    ensures Served(Without(pipes, r), receivers - {r})
    ensures forall q | q in receivers ::
              Registered(Without(pipes, r), q) <==> Registered(pipes, q) && !Twins(q, r)
  {
    var after := Without(pipes, r);
    if r.stream in pipes { RetainedPipes(pipes[r.stream], r.id); }
    forall t, k | t in after && 0 <= k < |after[t]|
      ensures HasReceiver(after[t][k], t, receivers - {r})
    {
      assert after[t][k] in pipes[t];
      var i :| 0 <= i < |pipes[t]| && pipes[t][i] == after[t][k];
      var q := OwnerOf(pipes, receivers, t, i);
      assert Serves(after[t][k], t, q);
      assert q != r by {
        if t == r.stream { assert after[t][k].id != r.id; }
      }
    }
    forall q | q in receivers
      ensures Registered(after, q) <==> Registered(pipes, q) && !Twins(q, r)
    {
      RegisteredAfterDrop(pipes, receivers, r, q);
    }
  }

  lemma RegisteredAfterDrop(pipes: Registry, receivers: set<ReceiverPipe>, r: ReceiverPipe, q: ReceiverPipe)
    requires Served(pipes, receivers) && q in receivers
    ensures Registered(Without(pipes, r), q) <==> Registered(pipes, q) && !Twins(q, r)
  {
    if r.stream in pipes && q.stream == r.stream {
      var all, kept := pipes[r.stream], WithoutId(pipes[r.stream], r.id);
      RetainedPipes(all, r.id);
      if k :| 0 <= k < |all| && all[k].channel == q.channel {
        SenderHasId(pipes, receivers, q, k);
        if q.id != r.id {
          var j :| 0 <= j < |kept| && kept[j] == all[k];
        }
      }
      if j :| 0 <= j < |kept| && kept[j].channel == q.channel {
        var k :| 0 <= k < |all| && all[k] == kept[j];
        SenderHasId(pipes, receivers, q, k);
      }
    }
  }

  ghost predicate AllRegistered(pipes: Registry, receivers: set<ReceiverPipe>) {
    forall q | q in receivers :: Registered(pipes, q)
  }

  ghost predicate NoTwin(receivers: set<ReceiverPipe>, r: ReceiverPipe) {
    forall q | q in receivers && q != r :: !Twins(q, r)
  }

  /** While every live receiver is registered, dropping one leaves the others registered, so
      that none of them sees the end of its stream, exactly when none is its twin. */
  lemma NoEarlyEndExact(pipes: Registry, receivers: set<ReceiverPipe>, r: ReceiverPipe)
    requires Served(pipes, receivers) && r in receivers
    requires AllRegistered(pipes, receivers)
    ensures AllRegistered(Without(pipes, r), receivers - {r}) <==> NoTwin(receivers, r)
  {
    DroppedServed(pipes, receivers, r);
  }

  /** What happens to the registry: receivers come, each with a channel of its own, and go. */
  datatype Life = Opened(r: ReceiverPipe) | Gone(r: ReceiverPipe)

  ghost function RegistryAfter(lives: seq<Life>): (Registry, set<ReceiverPipe>) {
    if lives == [] then (map[], {})
    else
      var (pipes, receivers) := RegistryAfter(lives[..|lives| - 1]);
      match lives[|lives| - 1]
      case Opened(r) => (Added(pipes, SenderPipe(r.id, r.channel), r.stream), receivers + {r})
      case Gone(r) => (Without(pipes, r), receivers - {r})
  }

  ghost predicate PossibleLives(lives: seq<Life>) {
    lives == [] ||
    (var receivers := RegistryAfter(lives[..|lives| - 1]).1;
     && PossibleLives(lives[..|lives| - 1])
     && match lives[|lives| - 1]
        case Opened(r) => forall q | q in receivers :: q.channel != r.channel
        case Gone(r) => r in receivers)
  }

  /** At every moment each live receiver has its sender: no poll of it reports the end. */
  ghost predicate AlwaysRegistered(lives: seq<Life>) {
    var (pipes, receivers) := RegistryAfter(lives);
    && AllRegistered(pipes, receivers)
    && (lives == [] || AlwaysRegistered(lives[..|lives| - 1]))
  }

  /** No receiver goes while another live one has its id and stream. */
  ghost predicate NoTwinDropped(lives: seq<Life>) {
    lives == [] ||
    (var receivers := RegistryAfter(lives[..|lives| - 1]).1;
     && NoTwinDropped(lives[..|lives| - 1])
     && (lives[|lives| - 1].Gone? ==> NoTwin(receivers, lives[|lives| - 1].r)))
  }

  lemma {:induction false} ServedOverLives(lives: seq<Life>)
    requires PossibleLives(lives)
    ensures Served(RegistryAfter(lives).0, RegistryAfter(lives).1)
  {
    if lives != [] {
      var rest, last := lives[..|lives| - 1], lives[|lives| - 1];
      ServedOverLives(rest);
      var (pipes, receivers) := RegistryAfter(rest);
      match last
      case Opened(r) => AddedServed(pipes, receivers, r);
      case Gone(r) => DroppedServed(pipes, receivers, r);
    }
  }

  /** Over every run of the registry: no live receiver ever sees the end of its stream exactly
      when none goes while a live one has its id and stream; so with unique ids none does. */
  lemma {:induction false} NoEarlyEndOverRuns(lives: seq<Life>)
    requires PossibleLives(lives)
    ensures AlwaysRegistered(lives) <==> NoTwinDropped(lives)
  {
    if lives != [] {
      var rest, last := lives[..|lives| - 1], lives[|lives| - 1];
      NoEarlyEndOverRuns(rest);
      ServedOverLives(rest);
      var (pipes, receivers) := RegistryAfter(rest);
      hide Served; hide Registered; hide NoTwin; hide Twins; hide Added; hide Without;
      if AlwaysRegistered(rest) {
        match last
        case Opened(r) => AddedServed(pipes, receivers, r);
        case Gone(r) =>
          assert AllRegistered(pipes, receivers);
          hide AllRegistered;
          NoEarlyEndExact(pipes, receivers, r);
      }
    }
  }

  class LiveTail {
    var pipes: Registry
    ghost var receivers: set<ReceiverPipe>   // the receivers not yet dropped

    ghost function Channels(): set<Channel>
      reads this
    {
      ChannelsOf(receivers)
    }

    /** Each live receiver's channel is sound and knows which of its ends exist. */
    ghost predicate Valid()
      reads this, Channels()
    {
      && Served(pipes, receivers)
      && (forall r | r in receivers ::
            r.channel.Valid() && r.channel.receiverAlive && (r.channel.senderAlive <==> Registered(pipes, r)))
    }

    constructor ()
      ensures Valid() && pipes == map[] && receivers == {}
    {
      pipes, receivers := map[], {};
    }

    method NewPipe(id: string, stream: string) returns (r: ReceiverPipe)
      requires Valid()
      modifies this
      ensures Valid() && fresh(r.channel) && r.id == id && r.stream == stream && r.channel.capacity == 1000
      ensures receivers == old(receivers) + {r}
      ensures pipes == Added(old(pipes), SenderPipe(id, r.channel), stream)
    {
      hide Channel.Valid; hide Served; hide Registered;
      var channel := new Channel(1000);
      r := ReceiverPipe(id, stream, channel);
      AddedServed(pipes, receivers, r);
      pipes := pipes[stream := (if stream in pipes then pipes[stream] else []) + [SenderPipe(id, channel)]];
      receivers := receivers + {r};
    }

    /** `Drop for ReceiverPipe`.  Its id is all it has to find its sender by, so every sender
        of the stream with that id goes. */
    method DropReceiver(r: ReceiverPipe)
      requires Valid() && r in receivers
      modifies this, Channels()
      ensures Valid() && receivers == old(receivers) - {r} && !r.channel.receiverAlive
      ensures pipes == Without(old(pipes), r)
    {
      hide Channel.Valid; hide Served;
      DroppedServed(pipes, receivers, r);
      ReceiversApart(pipes, receivers);
      ghost var all := receivers;
      r.channel.receiverAlive := false;
      receivers := receivers - {r};
      if r.stream in pipes {
        var gone := pipes[r.stream];
        ghost var before := pipes;
        pipes := pipes[r.stream := WithoutId(gone, r.id)];
        assert forall k | 0 <= k < |gone| :: gone[k].channel in old(Channels()) by { SendersKnown(before, all); }
        forall k | 0 <= k < |gone| && gone[k].id == r.id {
          gone[k].channel.senderAlive := false;
        }
        forall q, k | q in all && q.stream == r.stream && 0 <= k < |gone| && gone[k].channel == q.channel
          ensures gone[k].id == q.id
        {
          SenderHasId(before, all, q, k);
        }
        forall q, k | q in all && q.stream != r.stream && 0 <= k < |gone|
          ensures gone[k].channel != q.channel
        {
          OneStream(before, all, q, r.stream, k);
        }
        forall q | q in receivers
          ensures q.channel.senderAlive <==> Registered(pipes, q)
        {
          assert Registered(pipes, q) <==> Registered(before, q) && !Twins(q, r);
        }
      }
    }

    /** Hands the batch to every pipe of the stream, once each. */
    method Process(stream: string, rb: Batch)
      requires Valid()
      modifies Channels()
      ensures Valid()
      ensures forall r | r in receivers ::
                r.channel.pipe == if r.stream == stream && Registered(pipes, r) then DoSend(old(r.channel.pipe), rb)
                                  else old(r.channel.pipe)
    {
      hide Channel.Valid; hide Served; hide DoSend;
      if stream !in pipes { return; }
      var read := pipes[stream];
      SendersKnown(pipes, receivers);
      SendersApart(pipes, receivers, stream);
      for k := 0 to |read|
        invariant Valid()
        invariant forall r, j | r in receivers && 0 <= j < |read| && read[j].channel == r.channel ::
                    r.channel.pipe == if j < k then DoSend(old(r.channel.pipe), rb) else old(r.channel.pipe)
        invariant forall r | r in receivers && (forall j | 0 <= j < |read| :: read[j].channel != r.channel) ::
                    r.channel.pipe == old(r.channel.pipe)
      {
        read[k].channel.Send(rb);
      }
      forall r, j | r in receivers && 0 <= j < |read| && read[j].channel == r.channel
        ensures r.stream == stream
      {
        OneStream(pipes, receivers, r, stream, j);
      }
    }
  }

  lemma SendersKnown(pipes: Registry, receivers: set<ReceiverPipe>)
    requires Served(pipes, receivers)
    ensures forall t, k | t in pipes && 0 <= k < |pipes[t]| ::
              pipes[t][k].channel in ChannelsOf(receivers)
  {
    forall t, k | t in pipes && 0 <= k < |pipes[t]|
      ensures pipes[t][k].channel in ChannelsOf(receivers)
    {
      var r := OwnerOf(pipes, receivers, t, k);
      assert r.channel in ChannelsOf(receivers);
    }
  }

  lemma ReceiversApart(pipes: Registry, receivers: set<ReceiverPipe>)
    requires Served(pipes, receivers)
    ensures forall q, r | q in receivers && r in receivers && q.channel == r.channel :: q == r
  {
  }

  lemma SendersApart(pipes: Registry, receivers: set<ReceiverPipe>, t: string)
    requires Served(pipes, receivers) && t in pipes
    ensures forall j, k | 0 <= j < k < |pipes[t]| :: pipes[t][j].channel != pipes[t][k].channel
  {
  }

  lemma OneStream(pipes: Registry, receivers: set<ReceiverPipe>, q: ReceiverPipe, t: string, k: nat)
    requires Served(pipes, receivers) && q in receivers && t in pipes && k < |pipes[t]|
    ensures pipes[t][k].channel == q.channel ==> q.stream == t
  {
    var r := OwnerOf(pipes, receivers, t, k);
  }
}

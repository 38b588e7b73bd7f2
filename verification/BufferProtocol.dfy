/** internal/buffer/buffer.go and the shutdown order of internal/app/app.go as one concurrent
    state machine: publishers, the batching goroutine, four flush workers, Close, the closing of
    the repository and the merges of the database. Every step is one channel operation, one
    Flush attempt or one shutdown action; their interleaving is arbitrary. */
module BufferProtocol {
  import opened Events
  import opened Stores

  const WORKERS := 4
  const QUEUE_SLOTS := 4

  type Batch = seq<Event>

  datatype Config = Config(capacity: nat, batchSize: nat, attempts: nat, calendar: Calendar)

  /** The defaults of `New` and the retry bound of `flushWithRetry`. */
  function Configure(capacity: int, flushBatchSize: int, flushRetries: int, calendar: Calendar): (c: Config)
    ensures c.capacity >= 1 && c.batchSize >= 1 && c.attempts >= 1
    ensures capacity > 0 ==> c.capacity == capacity
    ensures flushBatchSize > 0 ==> c.batchSize == flushBatchSize
    ensures flushRetries > 0 ==> c.attempts == flushRetries
    ensures capacity <= 0 ==> c.capacity == 1000
    ensures flushBatchSize <= 0 ==> c.batchSize == 1000
    ensures flushRetries <= 0 ==> c.attempts == 1
  {
    Config(if capacity <= 0 then 1000 else capacity,
           if flushBatchSize <= 0 then 1000 else flushBatchSize,
           if flushRetries < 1 then 1 else flushRetries, calendar)
  }

  ghost predicate Usable(c: Config) {
    c.capacity >= 1 && c.batchSize >= 1 && c.attempts >= 1
  }

  // ----- the channels and the batching goroutine -----

  datatype Next = ToSelect | ToDrain

  /** Where `runFlush` is: in its select, blocked in a dispatch, draining, or returned, which
      closes the trigger channel. */
  datatype Phase = Select(batch: Batch) | Sending(out: Batch, next: Next) | Draining(batch: Batch) | Exited

  datatype Channels = Channels(ch: seq<Event>, phase: Phase, queue: seq<Batch>)

  function Working(p: Phase): Batch {
    match p
    case Select(b) => b
    case Sending(out, _) => out
    case Draining(b) => b
    case Exited => []
  }

  /** `dispatch`: nothing to do for an empty batch, otherwise a send is due. */
  function Dispatch(batch: Batch, next: Next): Phase {
    if batch == [] then (if next.ToSelect? then Select([]) else Draining([])) else Sending(batch, next)
  }

  predicate CanPublish(c: Config, b: Channels) {
    |b.ch| < c.capacity
  }

  function DoPublish(b: Channels, e: Event): Channels {
    b.(ch := b.ch + [e])
  }

  predicate CanReceive(b: Channels) {
    b.phase.Select? && b.ch != []
  }

  function DoReceive(c: Config, b: Channels): Channels
    requires CanReceive(b)
  {
    var batch := b.phase.batch + [b.ch[0]];
    b.(ch := b.ch[1..], phase := if |batch| >= c.batchSize then Dispatch(batch, ToSelect) else Select(batch))
  }

  function DoTick(b: Channels): Channels
    requires b.phase.Select?
  {
    b.(phase := Dispatch(b.phase.batch, ToSelect))
  }

  function DoDone(b: Channels): Channels
    requires b.phase.Select?
  {
    b.(phase := Dispatch(b.phase.batch, ToDrain))
  }

  predicate CanSend(b: Channels) {
    b.phase.Sending? && |b.queue| < QUEUE_SLOTS
  }

  function DoSend(b: Channels): Channels
    requires CanSend(b)
  {
    b.(queue := b.queue + [b.phase.out], phase := if b.phase.next.ToSelect? then Select([]) else Draining([]))
  }

  predicate CanDrainReceive(c: Config, b: Channels) {
    b.phase.Draining? && |b.phase.batch| < c.batchSize && b.ch != []
  }

  function DoDrainReceive(b: Channels): Channels
    requires b.phase.Draining? && b.ch != []
  {
    b.(ch := b.ch[1..], phase := Draining(b.phase.batch + [b.ch[0]]))
  }

  /** `drainBatch` returns: the batch is full or the channel is empty. */
  predicate CanDrainStop(c: Config, b: Channels) {
    b.phase.Draining? && (|b.phase.batch| == c.batchSize || b.ch == [])
  }

  function DoDrainStop(b: Channels): Channels
    requires b.phase.Draining?
  {
    b.(phase := if b.phase.batch == [] then Exited else Sending(b.phase.batch, ToDrain))
  }

  // ----- the whole process -----

  datatype Worker = Idle | Busy(batch: Batch, tries: nat) | Gone

  /** A batch is resolved when Flush accepted it, or when its attempts are used up. */
  datatype Resolution = Resolution(batch: Batch, tries: nat, ok: bool)

  datatype Stage = Running | ServerStopped | Closing | Closed | RepoClosed

  /** `quiet`: the server stopped with no handler left running. `clean`: Close returned because
      the goroutines had finished. The last six fields are history. */
  datatype State = State(
    b: Channels, workers: seq<Worker>, stage: Stage, quiet: bool, clean: bool, table: Table,
    accepted: seq<Event>, dispatched: seq<Batch>, taken: seq<Batch>, resolved: seq<Resolution>,
    exitMark: nat, lateFlush: bool)

  predicate Done(s: State) {
    s.stage.Closing? || s.stage.Closed? || s.stage.RepoClosed?
  }

  datatype Step =
    | Publish(e: Event)
    | Receive
    | Tick
    | DoneArm
    | Send
    | DrainReceive
    | DrainStop
    | Take(w: nat)
    | Flush(w: nat, script: DriverScript)
    | WorkerExit(w: nat)
    | StopServer(quiet: bool)
    | CloseBegin
    | CloseFinished
    | CloseTimedOut
    | CloseRepo
    | Merge(merged: Table)

  ghost function Init(): State {
    State(Channels([], Select([]), []), [Idle, Idle, Idle, Idle], Running, false, false, multiset{},
          [], [], [], [], 0, false)
  }

  predicate AllGone(ws: seq<Worker>) {
    forall i | 0 <= i < |ws| :: ws[i].Gone?
  }

  /** Every goroutine has returned. */
  predicate Finished(s: State) {
    s.b.phase.Exited? && AllGone(s.workers)
  }

  ghost predicate Enabled(c: Config, s: State, step: Step) {
    match step
    case Publish(e) => !s.quiet && CanPublish(c, s.b)
    case Receive => CanReceive(s.b)
    case Tick => s.b.phase.Select?
    case DoneArm => s.b.phase.Select? && Done(s)
    case Send => CanSend(s.b)
    case DrainReceive => CanDrainReceive(c, s.b)
    case DrainStop => CanDrainStop(c, s.b)
    case Take(w) => w < |s.workers| && s.workers[w].Idle? && s.b.queue != []
    case Flush(w, script) =>
      w < |s.workers| && s.workers[w].Busy? && Honest(script, s.workers[w].batch)
    case WorkerExit(w) => w < |s.workers| && s.workers[w].Idle? && s.b.queue == [] && s.b.phase.Exited?
    case StopServer(_) => s.stage.Running?
    case CloseBegin => s.stage.ServerStopped?
    case CloseFinished => s.stage.Closing? && Finished(s)
    case CloseTimedOut => s.stage.Closing?
    case CloseRepo => s.stage.Closed?
    case Merge(merged) => MergeStep(c.calendar, s.table, merged)
  }

  /** A Flush attempt by worker `w`. */
  function DoFlush(c: Config, s: State, w: nat, script: DriverScript): State
    requires w < |s.workers| && s.workers[w].Busy?
  {
    var batch, tries := s.workers[w].batch, s.workers[w].tries + 1;
    var ok := FlushSucceeds(script, |batch|);
    var written := s.(table := s.table + (if Sends(script, |batch|) then script.landed else multiset{}),
                      lateFlush := s.lateFlush || s.stage.RepoClosed?);
    if ok || tries >= c.attempts
    then written.(workers := s.workers[w := Idle], resolved := s.resolved + [Resolution(batch, tries, ok)])
    else written.(workers := s.workers[w := Busy(batch, tries)])
  }

  ghost function Apply(c: Config, s: State, step: Step): State
    requires Enabled(c, s, step)
  {
    match step
    case Publish(e) => s.(b := DoPublish(s.b, e), accepted := s.accepted + [e])
    case Receive => s.(b := DoReceive(c, s.b))
    case Tick => s.(b := DoTick(s.b))
    case DoneArm => s.(b := DoDone(s.b))
    case Send => s.(b := DoSend(s.b), dispatched := s.dispatched + [s.b.phase.out])
    case DrainReceive => s.(b := DoDrainReceive(s.b))
    case DrainStop =>
      s.(b := DoDrainStop(s.b), exitMark := if s.b.phase.batch == [] then |s.accepted| else s.exitMark)
    case Take(w) =>
      s.(b := s.b.(queue := s.b.queue[1..]), workers := s.workers[w := Busy(s.b.queue[0], 0)],
         taken := s.taken + [s.b.queue[0]])
    case Flush(w, script) => DoFlush(c, s, w, script)
    case WorkerExit(w) => s.(workers := s.workers[w := Gone])
    case StopServer(quiet) => s.(stage := ServerStopped, quiet := quiet)
    case CloseBegin => s.(stage := Closing)
    case CloseFinished => s.(stage := Closed, clean := true)
    case CloseTimedOut => s.(stage := Closed)
    case CloseRepo => s.(stage := RepoClosed)
    case Merge(merged) => s.(table := merged)
  }

  // ----- runs -----

  ghost predicate Legal(c: Config, s: State, steps: seq<Step>)
    decreases |steps|
  {
    steps == [] || (Enabled(c, s, steps[0]) && Legal(c, Apply(c, s, steps[0]), steps[1..]))
  }

  ghost function Exec(c: Config, s: State, steps: seq<Step>): State
    requires Legal(c, s, steps)
    decreases |steps|
  {
    if steps == [] then s else Exec(c, Apply(c, s, steps[0]), steps[1..])
  }

  ghost predicate Reachable(c: Config, s: State) {
    exists steps :: Legal(c, Init(), steps) && Exec(c, Init(), steps) == s
  }

  lemma {:induction false} LegalAppend(c: Config, s: State, steps: seq<Step>, step: Step)
    requires Legal(c, s, steps) && Enabled(c, Exec(c, s, steps), step)
    ensures Legal(c, s, steps + [step])
    ensures Exec(c, s, steps + [step]) == Apply(c, Exec(c, s, steps), step)
    decreases |steps|
  {
    if steps == [] {
    } else {
      LegalAppend(c, Apply(c, s, steps[0]), steps[1..], step);
      assert (steps + [step])[1..] == steps[1..] + [step];
    }
  }

  lemma ReachableStep(c: Config, s: State, step: Step)
    requires Reachable(c, s) && Enabled(c, s, step)
    ensures Reachable(c, Apply(c, s, step))
  {
    var steps :| Legal(c, Init(), steps) && Exec(c, Init(), steps) == s;
    LegalAppend(c, Init(), steps, step);
  }

  // ----- invariant: shape and bounds -----

  ghost predicate Sized(c: Config, b: Batch) {
    1 <= |b| <= c.batchSize
  }

  ghost predicate ChannelShape(c: Config, b: Channels) {
    && |b.ch| <= c.capacity
    && |b.queue| <= QUEUE_SLOTS
    && (b.phase.Select? ==> |b.phase.batch| < c.batchSize)
    && (b.phase.Sending? ==> Sized(c, b.phase.out))
    && (b.phase.Draining? ==> |b.phase.batch| <= c.batchSize)
    && (forall i :: 0 <= i < |b.queue| ==> Sized(c, b.queue[i]))
  }

  ghost predicate Stopping(p: Phase) {
    p.Draining? || p.Exited? || (p.Sending? && p.next.ToDrain?)
  }

  ghost predicate BusyShape(c: Config, ws: seq<Worker>) {
    |ws| == WORKERS
    && forall w :: 0 <= w < |ws| && ws[w].Busy? ==> Sized(c, ws[w].batch) && ws[w].tries < c.attempts
  }

  /** Workers leave only after the trigger channel is closed and empty. */
  ghost predicate GoneShape(ws: seq<Worker>, b: Channels) {
    forall w :: 0 <= w < |ws| && ws[w].Gone? ==> b.phase.Exited? && b.queue == []
  }

  ghost predicate WorkerShape(c: Config, s: State) {
    BusyShape(c, s.workers) && GoneShape(s.workers, s.b) && (Stopping(s.b.phase) ==> Done(s))
  }

  ghost predicate Shape(c: Config, s: State) {
    ChannelShape(c, s.b) && WorkerShape(c, s)
  }

  lemma ChannelShapeStep(c: Config, s: State, step: Step)
    requires Usable(c) && ChannelShape(c, s.b) && Enabled(c, s, step)
    ensures ChannelShape(c, Apply(c, s, step).b)
  {
    match step case _ =>
  }

  lemma BusyShapeStep(c: Config, s: State, step: Step)
    requires Usable(c) && ChannelShape(c, s.b) && BusyShape(c, s.workers) && Enabled(c, s, step)
    ensures BusyShape(c, Apply(c, s, step).workers)
  {
    match step case _ =>
  }

  lemma GoneShapeStep(c: Config, s: State, step: Step)
    requires GoneShape(s.workers, s.b) && Enabled(c, s, step)
    ensures GoneShape(Apply(c, s, step).workers, Apply(c, s, step).b)
  {
    match step case _ =>
  }

  lemma StoppingStep(c: Config, s: State, step: Step)
    requires (Stopping(s.b.phase) ==> Done(s)) && Enabled(c, s, step)
    ensures Stopping(Apply(c, s, step).b.phase) ==> Done(Apply(c, s, step))
  {
    match step case _ =>
  }

  lemma ShapeStep(c: Config, s: State, step: Step)
    requires Usable(c) && Shape(c, s) && Enabled(c, s, step)
    ensures Shape(c, Apply(c, s, step))
  {
    ChannelShapeStep(c, s, step);
    BusyShapeStep(c, s, step);
    GoneShapeStep(c, s, step);
    StoppingStep(c, s, step);
  }

  // ----- invariant: first in, first out -----

  function Flatten(bs: seq<Batch>): seq<Event> {
    if bs == [] then [] else Flatten(bs[..|bs| - 1]) + bs[|bs| - 1]
  }

  lemma FlattenAppend(bs: seq<Batch>, b: Batch)
    ensures Flatten(bs + [b]) == Flatten(bs) + b
  {
    assert (bs + [b])[..|bs|] == bs;
  }

  /** The same on the parts of the state it reads. */
  ghost predicate InOrder(dispatched: seq<Batch>, taken: seq<Batch>, b: Channels, accepted: seq<Event>) {
    && Flatten(dispatched) + Working(b.phase) + b.ch == accepted
    && dispatched == taken + b.queue
  }

  /** Dispatched batches, then the batch in hand, then the channel: the accepted log. */
  ghost predicate Fifo(s: State) {
    InOrder(s.dispatched, s.taken, s.b, s.accepted)
  }

  lemma MoveHead(a: seq<Event>, b: seq<Event>, c: seq<Event>)
    requires c != []
    ensures a + (b + [c[0]]) + c[1..] == a + b + c
  {
  }

  lemma MoveBatch(a: seq<Event>, b: seq<Event>, c: seq<Event>)
    ensures a + b + [] + c == a + b + c
  {
  }

  lemma AppendLast(a: seq<Event>, b: seq<Event>, c: seq<Event>, e: Event)
    ensures a + b + (c + [e]) == a + b + c + [e]
  {
  }

  lemma TakeFirst(a: seq<Batch>, q: seq<Batch>)
    requires q != []
    ensures a + q == a + [q[0]] + q[1..]
  {
  }

  lemma AppendBatch(a: seq<Batch>, q: seq<Batch>, b: Batch)
    ensures a + q + [b] == a + (q + [b])
  {
  }

  lemma PublishInOrder(dispatched: seq<Batch>, taken: seq<Batch>, b: Channels, accepted: seq<Event>, e: Event)
    requires InOrder(dispatched, taken, b, accepted)
    ensures InOrder(dispatched, taken, DoPublish(b, e), accepted + [e])
  {
    AppendLast(Flatten(dispatched), Working(b.phase), b.ch, e);
  }

  lemma ReceiveInOrder(c: Config, dispatched: seq<Batch>, taken: seq<Batch>, b: Channels, accepted: seq<Event>)
    requires InOrder(dispatched, taken, b, accepted) && CanReceive(b)
    ensures InOrder(dispatched, taken, DoReceive(c, b), accepted)
  {
    MoveHead(Flatten(dispatched), b.phase.batch, b.ch);
  }

  lemma DrainReceiveInOrder(dispatched: seq<Batch>, taken: seq<Batch>, b: Channels, accepted: seq<Event>)
    requires InOrder(dispatched, taken, b, accepted) && b.phase.Draining? && b.ch != []
    ensures InOrder(dispatched, taken, DoDrainReceive(b), accepted)
  {
    MoveHead(Flatten(dispatched), b.phase.batch, b.ch);
  }

  lemma SendInOrder(dispatched: seq<Batch>, taken: seq<Batch>, b: Channels, accepted: seq<Event>)
    requires InOrder(dispatched, taken, b, accepted) && CanSend(b)
    ensures InOrder(dispatched + [b.phase.out], taken, DoSend(b), accepted)
  {
    FlattenAppend(dispatched, b.phase.out);
    MoveBatch(Flatten(dispatched), b.phase.out, b.ch);
    AppendBatch(taken, b.queue, b.phase.out);
  }

  lemma PhaseInOrder(dispatched: seq<Batch>, taken: seq<Batch>, b: Channels, accepted: seq<Event>, phase: Phase)
    requires InOrder(dispatched, taken, b, accepted) && Working(phase) == Working(b.phase)
    ensures InOrder(dispatched, taken, b.(phase := phase), accepted)
  {
  }

  lemma TakeInOrder(dispatched: seq<Batch>, taken: seq<Batch>, b: Channels, accepted: seq<Event>)
    requires InOrder(dispatched, taken, b, accepted) && b.queue != []
    ensures InOrder(dispatched, taken + [b.queue[0]], b.(queue := b.queue[1..]), accepted)
  {
    TakeFirst(taken, b.queue);
  }

  lemma FifoStep(c: Config, s: State, step: Step)
    requires Fifo(s) && Enabled(c, s, step)
    ensures Fifo(Apply(c, s, step))
  {
    match step {
      case Publish(e) => PublishInOrder(s.dispatched, s.taken, s.b, s.accepted, e);
      case Receive => ReceiveInOrder(c, s.dispatched, s.taken, s.b, s.accepted);
      case DrainReceive => DrainReceiveInOrder(s.dispatched, s.taken, s.b, s.accepted);
      case Send => SendInOrder(s.dispatched, s.taken, s.b, s.accepted);
      case Take(_) => TakeInOrder(s.dispatched, s.taken, s.b, s.accepted);
      case Tick => PhaseInOrder(s.dispatched, s.taken, s.b, s.accepted, DoTick(s.b).phase);
      case DoneArm => PhaseInOrder(s.dispatched, s.taken, s.b, s.accepted, DoDone(s.b).phase);
      case DrainStop => PhaseInOrder(s.dispatched, s.taken, s.b, s.accepted, DoDrainStop(s.b).phase);
      case _ =>
    }
  }

  // ----- invariant: every taken batch is held by a worker or resolved, once -----

  ghost function Bag(bs: seq<Batch>): multiset<Event> {
    if bs == [] then multiset{} else Bag(bs[..|bs| - 1]) + multiset(bs[|bs| - 1])
  }

  ghost function ResolvedBag(rs: seq<Resolution>, ok: bool): multiset<Event> {
    if rs == [] then multiset{}
    else ResolvedBag(rs[..|rs| - 1], ok) + if rs[|rs| - 1].ok == ok then multiset(rs[|rs| - 1].batch) else multiset{}
  }

  ghost function Held(w: Worker): multiset<Event> {
    if w.Busy? then multiset(w.batch) else multiset{}
  }

  ghost function HeldBag(ws: seq<Worker>): multiset<Event>
    requires |ws| == WORKERS
  {
    Held(ws[0]) + Held(ws[1]) + Held(ws[2]) + Held(ws[3])
  }

  lemma BagAppend(bs: seq<Batch>, b: Batch)
    ensures Bag(bs + [b]) == Bag(bs) + multiset(b)
  {
    assert (bs + [b])[..|bs|] == bs;
  }

  lemma ResolvedAppend(rs: seq<Resolution>, r: Resolution, ok: bool)
    ensures ResolvedBag(rs + [r], ok) == ResolvedBag(rs, ok) + if r.ok == ok then multiset(r.batch) else multiset{}
  {
    assert (rs + [r])[..|rs|] == rs;
  }

  /** Replacing one of four summands, wherever it stands. */
  lemma SwapIn(a: multiset<Event>, b: multiset<Event>, c: multiset<Event>, x: multiset<Event>, y: multiset<Event>)
    ensures y + a + b + c + x == x + a + b + c + y
    ensures a + y + b + c + x == a + x + b + c + y
    ensures a + b + y + c + x == a + b + x + c + y
    ensures a + b + c + y + x == a + b + c + x + y
  {
  }

  lemma HeldUpdate(ws: seq<Worker>, w: nat, x: Worker)
    requires |ws| == WORKERS && w < |ws|
    ensures HeldBag(ws[w := x]) + Held(ws[w]) == HeldBag(ws) + Held(x)
  {
    var a, b, c, d := Held(ws[0]), Held(ws[1]), Held(ws[2]), Held(ws[3]);
    if w == 0 { SwapIn(b, c, d, a, Held(x)); }
    else if w == 1 { SwapIn(a, c, d, b, Held(x)); }
    else if w == 2 { SwapIn(a, b, d, c, Held(x)); }
    else { SwapIn(a, b, c, d, Held(x)); }
  }

  ghost predicate Balanced(taken: seq<Batch>, resolved: seq<Resolution>, ws: seq<Worker>)
    requires |ws| == WORKERS
  {
    Bag(taken) == ResolvedBag(resolved, true) + ResolvedBag(resolved, false) + HeldBag(ws)
  }

  ghost predicate Accounted(s: State)
    requires |s.workers| == WORKERS
  {
    Balanced(s.taken, s.resolved, s.workers)
  }

  lemma TakeBalances(bag: multiset<Event>, ok: multiset<Event>, bad: multiset<Event>, h: multiset<Event>,
                     h': multiset<Event>, x: multiset<Event>)
    requires bag == ok + bad + h && h' + multiset{} == h + x
    ensures bag + x == ok + bad + h'
  {
    forall e ensures (bag + x)[e] == (ok + bad + h')[e] {
      assert (h' + multiset{})[e] == (h + x)[e];
    }
  }

  lemma ResolveBalances(bag: multiset<Event>, ok: multiset<Event>, bad: multiset<Event>, h: multiset<Event>,
                        h': multiset<Event>, x: multiset<Event>)
    requires bag == ok + bad + h && h' + x == h + multiset{}
    ensures bag == (ok + x) + (bad + multiset{}) + h' && bag == (ok + multiset{}) + (bad + x) + h'
  {
    forall e ensures bag[e] == ((ok + x) + (bad + multiset{}) + h')[e] == ((ok + multiset{}) + (bad + x) + h')[e] {
      assert (h' + x)[e] == (h + multiset{})[e];
    }
  }

  lemma TakeAccounted(taken: seq<Batch>, resolved: seq<Resolution>, ws: seq<Worker>, w: nat, x: Batch)
    requires |ws| == WORKERS && Balanced(taken, resolved, ws) && w < |ws| && ws[w].Idle?
    ensures Balanced(taken + [x], resolved, ws[w := Busy(x, 0)])
  {
    HeldUpdate(ws, w, Busy(x, 0));
    BagAppend(taken, x);
    TakeBalances(Bag(taken), ResolvedBag(resolved, true), ResolvedBag(resolved, false),
                 HeldBag(ws), HeldBag(ws[w := Busy(x, 0)]), multiset(x));
  }

  lemma ResolveAccounted(taken: seq<Batch>, resolved: seq<Resolution>, ws: seq<Worker>, w: nat, r: Resolution)
    requires |ws| == WORKERS && Balanced(taken, resolved, ws) && w < |ws| && ws[w].Busy? && ws[w].batch == r.batch
    ensures Balanced(taken, resolved + [r], ws[w := Idle])
  {
    HeldUpdate(ws, w, Idle);
    ResolvedAppend(resolved, r, true);
    ResolvedAppend(resolved, r, false);
    ResolveBalances(Bag(taken), ResolvedBag(resolved, true), ResolvedBag(resolved, false),
                    HeldBag(ws), HeldBag(ws[w := Idle]), multiset(r.batch));
  }

  lemma SameHeld(ws: seq<Worker>, w: nat, x: Worker)
    requires |ws| == WORKERS && w < |ws| && Held(x) == Held(ws[w])
    ensures HeldBag(ws[w := x]) == HeldBag(ws)
  {
    var vs := ws[w := x];
    assert Held(vs[0]) == Held(ws[0]) && Held(vs[1]) == Held(ws[1]) && Held(vs[2]) == Held(ws[2]) && Held(vs[3]) == Held(ws[3]);
  }

  lemma SameHeldAccounted(taken: seq<Batch>, resolved: seq<Resolution>, ws: seq<Worker>, w: nat, x: Worker)
    requires |ws| == WORKERS && Balanced(taken, resolved, ws) && w < |ws| && Held(x) == Held(ws[w])
    ensures Balanced(taken, resolved, ws[w := x])
  {
    assert HeldBag(ws[w := x]) == HeldBag(ws) by { SameHeld(ws, w, x); }
  }

  lemma FlushAccounted(c: Config, s: State, w: nat, script: DriverScript)
    requires |s.workers| == WORKERS && Accounted(s) && w < |s.workers| && s.workers[w].Busy?
    ensures Accounted(DoFlush(c, s, w, script))
  {
    var t := DoFlush(c, s, w, script);
    var batch, tries := s.workers[w].batch, s.workers[w].tries + 1;
    var ok := FlushSucceeds(script, |batch|);
    if ok || tries >= c.attempts {
      var r := Resolution(batch, tries, ok);
      ResolveAccounted(s.taken, s.resolved, s.workers, w, r);
      assert t.taken == s.taken && t.resolved == s.resolved + [r] && t.workers == s.workers[w := Idle];
    } else {
      SameHeldAccounted(s.taken, s.resolved, s.workers, w, Busy(batch, tries));
      assert t.taken == s.taken && t.resolved == s.resolved && t.workers == s.workers[w := Busy(batch, tries)];
    }
  }

  lemma TakeStepAccounted(c: Config, s: State, w: nat)
    requires |s.workers| == WORKERS && Accounted(s) && Enabled(c, s, Take(w))
    ensures |Apply(c, s, Take(w)).workers| == WORKERS && Accounted(Apply(c, s, Take(w)))
  {
    TakeAccounted(s.taken, s.resolved, s.workers, w, s.b.queue[0]);
  }

  lemma ExitStepAccounted(c: Config, s: State, w: nat)
    requires |s.workers| == WORKERS && Accounted(s) && Enabled(c, s, WorkerExit(w))
    ensures |Apply(c, s, WorkerExit(w)).workers| == WORKERS && Accounted(Apply(c, s, WorkerExit(w)))
  {
    SameHeldAccounted(s.taken, s.resolved, s.workers, w, Gone);
  }

  lemma OtherStepAccounted(c: Config, s: State, step: Step)
    requires |s.workers| == WORKERS && Accounted(s) && Enabled(c, s, step)
    requires !step.Take? && !step.Flush? && !step.WorkerExit?
    ensures |Apply(c, s, step).workers| == WORKERS && Accounted(Apply(c, s, step))
  {
    var t := Apply(c, s, step);
    assert t.taken == s.taken && t.resolved == s.resolved && t.workers == s.workers;
  }

  lemma AccountedStep(c: Config, s: State, step: Step)
    requires |s.workers| == WORKERS && Accounted(s) && Enabled(c, s, step)
    ensures |Apply(c, s, step).workers| == WORKERS && Accounted(Apply(c, s, step))
  {
    if step.Take? {
      TakeStepAccounted(c, s, step.w);
    } else if step.Flush? {
      FlushAccounted(c, s, step.w, step.script);
    } else if step.WorkerExit? {
      ExitStepAccounted(c, s, step.w);
    } else {
      OtherStepAccounted(c, s, step);
    }
  }

  // ----- invariant: what has reached the table -----

  ghost predicate Settled(c: Config, t: Table, r: Resolution) {
    Sized(c, r.batch)
    && if r.ok then 1 <= r.tries <= c.attempts && Persisted(t, r.batch) else r.tries == c.attempts
  }

  /** Resolved batches had their attempts, and a succeeded one has all its keys in the table;
      the table holds accepted events only. */
  ghost predicate Stored(c: Config, s: State) {
    && (forall i :: 0 <= i < |s.resolved| ==> Settled(c, s.table, s.resolved[i]))
    && (forall w :: 0 <= w < |s.workers| && s.workers[w].Busy? ==> s.workers[w].batch in s.taken)
    && (forall r <- Rows(s.table) :: r.event in s.accepted)
  }

  ghost predicate AllSized(c: Config, bs: seq<Batch>) {
    forall i :: 0 <= i < |bs| ==> Sized(c, bs[i])
  }

  lemma TakenSizedStep(c: Config, s: State, step: Step)
    requires ChannelShape(c, s.b) && AllSized(c, s.taken) && Enabled(c, s, step)
    ensures AllSized(c, Apply(c, s, step).taken)
  {
    match step {
      case Take(w) => assert Sized(c, s.b.queue[0]);
      case _ =>
    }
  }

  lemma {:induction false} InFlatten(bs: seq<Batch>, b: Batch, e: Event)
    requires b in bs && e in b
    ensures e in Flatten(bs)
  {
    if b == bs[|bs| - 1] {
    } else {
      InFlatten(bs[..|bs| - 1], b, e);
    }
  }

  lemma TakenWasAccepted(s: State, b: Batch)
    requires Fifo(s) && b in s.taken
    ensures forall e <- b :: e in s.accepted
  {
    forall e <- b ensures e in s.accepted {
      assert b in s.dispatched;
      InFlatten(s.dispatched, b, e);
    }
  }

  lemma MergeKeepsKeys(cal: Calendar, t: Table, t': Table)
    requires MergeStep(cal, t, t')
    ensures Keys(Rows(t')) == Keys(Rows(t)) && Rows(t') <= Rows(t)
  {
    FinalExists(Rows(t'));
    var view :| IsFinal(view, Rows(t'));
    MergeKeepsFinal(cal, t, t', view);
  }

  /** No step removes a key from the table. */
  lemma TableGrows(c: Config, s: State, step: Step)
    requires Enabled(c, s, step)
    ensures Keys(Rows(s.table)) <= Keys(Rows(Apply(c, s, step).table))
  {
    match step {
      case Merge(t) => MergeKeepsKeys(c.calendar, s.table, t);
      case Flush(w, script) =>
        RowsOfSum(s.table, script.landed);
        KeysOfSum(Rows(s.table), Rows(script.landed));
      case _ =>
    }
  }

  lemma SettledStays(c: Config, t: Table, t': Table, rs: seq<Resolution>)
    requires Keys(Rows(t)) <= Keys(Rows(t'))
    requires forall i :: 0 <= i < |rs| ==> Settled(c, t, rs[i])
    ensures forall i :: 0 <= i < |rs| ==> Settled(c, t', rs[i])
  {
  }

  lemma FlushStored(c: Config, s: State, w: nat, script: DriverScript)
    requires Fifo(s) && Stored(c, s) && Enabled(c, s, Flush(w, script))
    requires Sized(c, s.workers[w].batch) && s.workers[w].tries < c.attempts
    ensures Stored(c, DoFlush(c, s, w, script))
  {
    var t := DoFlush(c, s, w, script);
    var batch := s.workers[w].batch;
    TableGrows(c, s, Flush(w, script));
    SettledStays(c, s.table, t.table, s.resolved);
    AttemptWrites(s.table, batch, script);
    TakenWasAccepted(s, batch);
  }

  lemma StoredStep(c: Config, s: State, step: Step)
    requires Shape(c, s) && Fifo(s) && Stored(c, s) && Enabled(c, s, step)
    ensures Stored(c, Apply(c, s, step))
  {
    match step {
      case Flush(w, script) => FlushStored(c, s, w, script);
      case Merge(t) =>
        MergeKeepsKeys(c.calendar, s.table, t);
        SettledStays(c, s.table, t, s.resolved);
      case _ =>
    }
  }

  // ----- invariant: shutdown -----

  /** After the goroutine has returned nothing is dispatched any more; a clean Close means every
      goroutine was gone, so no attempt can follow the closing of the repository. */
  ghost predicate ExitFacts(s: State) {
    && (s.b.phase.Exited? ==> |Flatten(s.dispatched)| == s.exitMark)
    && (s.b.phase.Exited? && s.quiet ==> s.b.ch == [])
    && (s.quiet ==> !s.stage.Running?)
  }

  ghost predicate CloseFacts(s: State) {
    && (s.clean ==> Finished(s) && (s.stage.Closed? || s.stage.RepoClosed?))
    && (s.lateFlush ==> s.stage.RepoClosed? && !s.clean)
  }

  ghost predicate ShutDown(s: State) {
    ExitFacts(s) && CloseFacts(s)
  }

  lemma ExitFactsStep(c: Config, s: State, step: Step)
    requires Usable(c) && ExitFacts(s) && Enabled(c, s, step)
    requires |Flatten(s.dispatched)| + |Working(s.b.phase)| + |s.b.ch| == |s.accepted|
    requires Stopping(s.b.phase) ==> Done(s)
    ensures ExitFacts(Apply(c, s, step))
  {
    match step case _ =>
  }

  lemma DispatchedLength(s: State)
    requires Fifo(s)
    ensures |Flatten(s.dispatched)| + |Working(s.b.phase)| + |s.b.ch| == |s.accepted|
  {
  }

  lemma CloseFactsStep(c: Config, s: State, step: Step)
    requires CloseFacts(s) && Enabled(c, s, step)
    ensures CloseFacts(Apply(c, s, step))
  {
    match step case _ =>
  }

  lemma ShutDownStep(c: Config, s: State, step: Step)
    requires Usable(c) && Shape(c, s) && Fifo(s) && ShutDown(s) && Enabled(c, s, step)
    ensures ShutDown(Apply(c, s, step))
  {
    DispatchedLength(s);
    ExitFactsStep(c, s, step);
    CloseFactsStep(c, s, step);
  }

  // ----- all of it, over every run -----

  ghost predicate Inv(c: Config, s: State) {
    Shape(c, s) && Fifo(s) && Accounted(s) && AllSized(c, s.taken) && Stored(c, s) && ShutDown(s)
  }

  lemma InvStep(c: Config, s: State, step: Step)
    requires Usable(c) && Inv(c, s) && Enabled(c, s, step)
    ensures Inv(c, Apply(c, s, step))
  {
    ShapeStep(c, s, step);
    FifoStep(c, s, step);
    AccountedStep(c, s, step);
    TakenSizedStep(c, s, step);
    StoredStep(c, s, step);
    ShutDownStep(c, s, step);
  }

  lemma InitInv(c: Config)
    requires Usable(c)
    ensures Inv(c, Init())
  {
    var s := Init();
    assert Rows(s.table) == {};
    assert Shape(c, s) && Fifo(s) && Accounted(s);
    assert Stored(c, s) && ShutDown(s);
  }

  lemma {:induction false} InvRun(c: Config, s: State, steps: seq<Step>)
    requires Usable(c) && Inv(c, s) && Legal(c, s, steps)
    ensures Inv(c, Exec(c, s, steps))
    decreases |steps|
  {
    if steps == [] {
    } else {
      InvStep(c, s, steps[0]);
      InvRun(c, Apply(c, s, steps[0]), steps[1..]);
    }
  }

  lemma ReachableInv(c: Config, s: State)
    requires Usable(c) && Reachable(c, s)
    ensures Inv(c, s)
  {
    var steps :| Legal(c, Init(), steps) && Exec(c, Init(), steps) == s;
    InitInv(c);
    InvRun(c, Init(), steps);
  }
}

/** What the buffer promises over whole runs: no event is lost, invented or dispatched twice,
    the backlog is bounded, a shutdown without late publishers drains and terminates, and what a
    clean Close guarantees. */
module BufferRuns {
  import opened Arithmetic
  import opened Results
  import opened Events
  import opened Stores
  import opened BufferProtocol

  // ----- conservation -----

  lemma {:induction false} BagConcat(a: seq<Batch>, b: seq<Batch>)
    ensures Bag(a + b) == Bag(a) + Bag(b)
  {
    if b == [] {
      assert a + b == a;
    } else {
      var n := |b| - 1;
      BagConcat(a, b[..n]);
      BagAppend(a + b[..n], b[n]);
      assert a + b == a + b[..n] + [b[n]];
      assert b == b[..n] + [b[n]];
    }
  }

  lemma {:induction false} BagIsFlatten(bs: seq<Batch>)
    ensures multiset(Flatten(bs)) == Bag(bs)
  {
    if bs == [] {
    } else {
      BagIsFlatten(bs[..|bs| - 1]);
    }
  }

  ghost function ResolvedEvents(s: State): multiset<Event> {
    ResolvedBag(s.resolved, true) + ResolvedBag(s.resolved, false)
  }

  /** Events admitted and not yet resolved, wherever they are. */
  ghost function Pending(s: State): multiset<Event>
    requires |s.workers| == WORKERS
  {
    HeldBag(s.workers) + Bag(s.b.queue) + multiset(Working(s.b.phase)) + multiset(s.b.ch)
  }

  lemma Regroup(t: multiset<Event>, ok: multiset<Event>, bad: multiset<Event>, h: multiset<Event>,
                q: multiset<Event>, w: multiset<Event>, c: multiset<Event>)
    requires t == ok + bad + h
    ensures t + q + w + c == (ok + bad) + (h + q + w + c)
  {
  }

  lemma ConservationOf(s: State)
    requires |s.workers| == WORKERS && Fifo(s) && Accounted(s)
    ensures multiset(s.accepted) == ResolvedEvents(s) + Pending(s)
  {
    var d, w, ch := Flatten(s.dispatched), Working(s.b.phase), s.b.ch;
    BagIsFlatten(s.dispatched);
    BagConcat(s.taken, s.b.queue);
    assert multiset(s.accepted) == multiset(d) + multiset(w) + multiset(ch);
    Regroup(Bag(s.taken), ResolvedBag(s.resolved, true), ResolvedBag(s.resolved, false), HeldBag(s.workers),
            Bag(s.b.queue), multiset(w), multiset(ch));
  }

  /** In every reachable state each admitted event is in exactly one place: resolved as
      persisted, resolved as abandoned, held by a worker, queued, being batched or in the
      channel. */
  lemma Conservation(c: Config, s: State)
    requires Usable(c) && Reachable(c, s)
    ensures |s.workers| == WORKERS
    ensures multiset(s.accepted) == ResolvedEvents(s) + Pending(s)
  {
    ReachableInv(c, s);
    ConservationOf(s);
  }

  lemma DispatchedSized(c: Config, taken: seq<Batch>, queue: seq<Batch>)
    requires AllSized(c, taken) && AllSized(c, queue)
    ensures AllSized(c, taken + queue)
  {
  }

  /** Batches are dispatched and taken in admission order, none of them twice, each of 1 to
      FlushBatchSize events. */
  lemma FirstInFirstOut(c: Config, s: State)
    requires Usable(c) && Reachable(c, s)
    ensures Flatten(s.dispatched) + Working(s.b.phase) + s.b.ch == s.accepted
    ensures s.dispatched == s.taken + s.b.queue
    ensures forall i :: 0 <= i < |s.dispatched| ==> 1 <= |s.dispatched[i]| <= c.batchSize
  {
    ReachableInv(c, s);
    DispatchedSized(c, s.taken, s.b.queue);
  }

  // ----- memory bound -----

  lemma TimesFour(k: nat)
    ensures Times(4, k) == 4 * k
  {
    assert Times(1, k) == k + Times(0, k) && Times(2, k) == k + Times(1, k) && Times(3, k) == k + Times(2, k);
  }

  lemma {:induction false} BagSize(c: Config, bs: seq<Batch>)
    requires forall i :: 0 <= i < |bs| ==> Sized(c, bs[i])
    ensures |Bag(bs)| <= Times(|bs|, c.batchSize)
  {
    if bs == [] {
    } else {
      var n := |bs| - 1;
      BagSize(c, bs[..n]);
      assert Sized(c, bs[n]) && |multiset(bs[n])| == |bs[n]|;
    }
  }

  lemma HeldSize(c: Config, ws: seq<Worker>)
    requires BusyShape(c, ws)
    ensures |HeldBag(ws)| <= 4 * c.batchSize
  {
    assert |Held(ws[0])| <= c.batchSize && |Held(ws[1])| <= c.batchSize;
    assert |Held(ws[2])| <= c.batchSize && |Held(ws[3])| <= c.batchSize;
  }

  lemma PendingSize(c: Config, s: State)
    requires Shape(c, s)
    ensures |Pending(s)| <= c.capacity + 9 * c.batchSize
  {
    BagSize(c, s.b.queue);
    HeldSize(c, s.workers);
    TimesMonotone(|s.b.queue|, 4, c.batchSize);
    TimesFour(c.batchSize);
    assert |multiset(Working(s.b.phase))| == |Working(s.b.phase)| <= c.batchSize;
    assert |multiset(s.b.ch)| == |s.b.ch|;
  }

  /** The buffer never holds more than the channel, one batch in hand, four queued and four in
      flight. */
  lemma BacklogBound(c: Config, s: State)
    requires Usable(c) && Reachable(c, s)
    ensures |s.accepted| - |ResolvedEvents(s)| <= c.capacity + 9 * c.batchSize
  {
    ReachableInv(c, s);
    ConservationOf(s);
    PendingSize(c, s);
    assert |multiset(s.accepted)| == |ResolvedEvents(s)| + |Pending(s)|;
  }

  // ----- no deadlock, and a bound on the work left -----

  /** A step that moves the pipeline on. A tick on an empty batch does not. */
  predicate Works(s: State, step: Step) {
    match step
    case Tick => s.b.phase.Select? && s.b.phase.batch != []
    case Receive => true
    case DoneArm => true
    case Send => true
    case DrainReceive => true
    case DrainStop => true
    case Take(_) => true
    case Flush(_, _) => true
    case WorkerExit(_) => true
    case _ => false
  }

  function PhaseWeight(c: Config, p: Phase): nat {
    match p
    case Select(b) => if b == [] then 3 else c.attempts + 6
    case Sending(_, next) => if next.ToSelect? then c.attempts + 5 else c.attempts + 4
    case Draining(b) => if b == [] then 2 else c.attempts + 5
    case Exited => 0
  }

  function WorkerWeight(c: Config, w: Worker): nat {
    match w
    case Idle => 1
    case Busy(_, tries) => if tries <= c.attempts then 1 + c.attempts - tries else 1
    case Gone => 0
  }

  function ChannelWork(c: Config, b: Channels): nat {
    Times(|b.ch|, c.attempts + 4) + PhaseWeight(c, b.phase) + Times(|b.queue|, c.attempts + 1)
  }

  function WorkerWork(c: Config, ws: seq<Worker>): nat
    requires |ws| == WORKERS
  {
    WorkerWeight(c, ws[0]) + WorkerWeight(c, ws[1]) + WorkerWeight(c, ws[2]) + WorkerWeight(c, ws[3])
  }

  /** Work left: each event in the channel may still start a batch of its own, each batch may
      still need all its attempts, each goroutine still has to leave. */
  function Work(c: Config, s: State): nat
    requires |s.workers| == WORKERS
  {
    ChannelWork(c, s.b) + WorkerWork(c, s.workers)
  }

  lemma WeightChange(c: Config, ws: seq<Worker>, w: nat, x: Worker)
    requires |ws| == WORKERS && w < |ws|
    ensures WorkerWork(c, ws[w := x]) + WorkerWeight(c, ws[w]) == WorkerWork(c, ws) + WorkerWeight(c, x)
  {
  }

  lemma ChannelWorkDecreases(c: Config, b: Channels)
    requires Usable(c) && ChannelShape(c, b)
    ensures CanReceive(b) ==> ChannelWork(c, DoReceive(c, b)) < ChannelWork(c, b)
    ensures CanDrainReceive(c, b) ==> ChannelWork(c, DoDrainReceive(b)) < ChannelWork(c, b)
    ensures CanDrainStop(c, b) ==> ChannelWork(c, DoDrainStop(b)) < ChannelWork(c, b)
    ensures b.phase.Select? ==> ChannelWork(c, DoDone(b)) < ChannelWork(c, b)
    ensures b.phase.Select? && b.phase.batch != [] ==> ChannelWork(c, DoTick(b)) < ChannelWork(c, b)
  {
  }

  lemma SendWorkDecreases(c: Config, b: Channels)
    requires CanSend(b)
    ensures ChannelWork(c, DoSend(b)) < ChannelWork(c, b)
  {
    assert Times(|b.queue| + 1, c.attempts + 1) == c.attempts + 1 + Times(|b.queue|, c.attempts + 1);
  }

  lemma TakeDecreases(c: Config, s: State, w: nat)
    requires |s.workers| == WORKERS && Enabled(c, s, Take(w))
    ensures |Apply(c, s, Take(w)).workers| == WORKERS && Work(c, Apply(c, s, Take(w))) < Work(c, s)
  {
    WeightChange(c, s.workers, w, Busy(s.b.queue[0], 0));
    assert Times(|s.b.queue|, c.attempts + 1) == c.attempts + 1 + Times(|s.b.queue[1..]|, c.attempts + 1);
  }

  lemma FlushDecreases(c: Config, s: State, w: nat, script: DriverScript)
    requires BusyShape(c, s.workers) && w < |s.workers| && s.workers[w].Busy?
    ensures |DoFlush(c, s, w, script).workers| == WORKERS && Work(c, DoFlush(c, s, w, script)) < Work(c, s)
  {
    var t := DoFlush(c, s, w, script);
    assert WorkerWeight(c, t.workers[w]) < WorkerWeight(c, s.workers[w]);
    assert t.workers == s.workers[w := t.workers[w]] && t.b == s.b;
    WeightChange(c, s.workers, w, t.workers[w]);
  }

  lemma WorkerStepDecreases(c: Config, s: State, step: Step)
    requires Shape(c, s) && Enabled(c, s, step) && (step.Take? || step.Flush? || step.WorkerExit?)
    ensures |Apply(c, s, step).workers| == WORKERS && Work(c, Apply(c, s, step)) < Work(c, s)
  {
    match step {
      case Take(w) => TakeDecreases(c, s, w);
      case Flush(w, script) => FlushDecreases(c, s, w, script);
      case WorkerExit(w) => WeightChange(c, s.workers, w, Gone);
    }
  }

  lemma ChannelStepDecreases(c: Config, s: State, step: Step)
    requires Usable(c) && Shape(c, s) && Enabled(c, s, step) && Works(s, step)
    requires !(step.Take? || step.Flush? || step.WorkerExit?)
    ensures Apply(c, s, step).workers == s.workers && Work(c, Apply(c, s, step)) < Work(c, s)
  {
    if step.Send? { SendWorkDecreases(c, s.b); } else { ChannelWorkDecreases(c, s.b); }
  }

  lemma IdleStepKeepsWork(c: Config, s: State, step: Step)
    requires |s.workers| == WORKERS && Enabled(c, s, step) && !Works(s, step) && !step.Publish?
    ensures Apply(c, s, step).workers == s.workers && Apply(c, s, step).b == s.b
  {
  }

  /** Nothing but a publish adds work, and every working step takes some away. */
  lemma WorkDecreases(c: Config, s: State, step: Step)
    requires Usable(c) && Shape(c, s) && Enabled(c, s, step) && !step.Publish?
    ensures |Apply(c, s, step).workers| == WORKERS && Work(c, Apply(c, s, step)) <= Work(c, s)
    ensures Works(s, step) ==> Work(c, Apply(c, s, step)) < Work(c, s)
  {
    if !Works(s, step) {
      IdleStepKeepsWork(c, s, step);
    } else if step.Take? || step.Flush? || step.WorkerExit? {
      WorkerStepDecreases(c, s, step);
    } else {
      ChannelStepDecreases(c, s, step);
    }
  }

  const Refusal := DriverScript(true, None, multiset{}, true)

  /** A step the goroutines can take, from the channels and the workers alone. */
  ghost function Choice(c: Config, b: Channels, ws: seq<Worker>): Step
    requires |ws| == WORKERS
  {
    if b.phase.Select? then DoneArm
    else if CanSend(b) then Send
    else if CanDrainReceive(c, b) then DrainReceive
    else if CanDrainStop(c, b) then DrainStop
    else
      var w: nat := if !ws[0].Gone? then 0 else if !ws[1].Gone? then 1 else if !ws[2].Gone? then 2 else 3;
      if ws[w].Busy? then Flush(w, Refusal) else if b.queue != [] then Take(w) else WorkerExit(w)
  }

  /** Once Close has begun, some step moves the pipeline on until every goroutine has returned:
      a blocked dispatch always finds a worker that can make room. */
  lemma NextWork(c: Config, s: State)
    requires Usable(c) && Shape(c, s) && Done(s) && !Finished(s)
    ensures var step := Choice(c, s.b, s.workers); Enabled(c, s, step) && Works(s, step)
  {
    var ws := s.workers;
    assert Rows(Refusal.landed) == {};
    assert s.b.phase.Sending? && !CanSend(s.b) ==> s.b.queue != [] && !ws[0].Gone?;
    assert s.b.phase.Exited? ==> !ws[0].Gone? || !ws[1].Gone? || !ws[2].Gone? || !ws[3].Gone?;
  }

  lemma NoDeadlock(c: Config, s: State)
    requires Usable(c) && Reachable(c, s) && Done(s)
    ensures Finished(s) || exists step :: Enabled(c, s, step) && Works(s, step)
  {
    ReachableInv(c, s);
    if !Finished(s) {
      NextWork(c, s);
    }
  }

  ghost predicate NoPublish(steps: seq<Step>) {
    forall i :: 0 <= i < |steps| ==> !steps[i].Publish?
  }

  ghost function WorkSteps(c: Config, s: State, steps: seq<Step>): nat
    requires Legal(c, s, steps)
    decreases |steps|
  {
    if steps == [] then 0
    else (if Works(s, steps[0]) then 1 else 0) + WorkSteps(c, Apply(c, s, steps[0]), steps[1..])
  }

  /** Without new publishes, no interleaving contains more working steps than the work left. */
  lemma {:induction false} WorkIsBounded(c: Config, s: State, steps: seq<Step>)
    requires Usable(c) && Shape(c, s) && Legal(c, s, steps) && NoPublish(steps)
    ensures WorkSteps(c, s, steps) <= Work(c, s)
    decreases |steps|
  {
    if steps == [] {
    } else {
      var t := Apply(c, s, steps[0]);
      ShapeStep(c, s, steps[0]);
      WorkDecreases(c, s, steps[0]);
      WorkIsBounded(c, t, steps[1..]);
    }
  }

  lemma PrependStep(c: Config, s: State, step: Step, rest: seq<Step>)
    requires Enabled(c, s, step) && Legal(c, Apply(c, s, step), rest) && NoPublish(rest) && !step.Publish?
    ensures Legal(c, s, [step] + rest) && NoPublish([step] + rest)
    ensures Exec(c, s, [step] + rest) == Exec(c, Apply(c, s, step), rest)
  {
    assert ([step] + rest)[1..] == rest;
  }

  ghost predicate Winding(c: Config, s: State) {
    Shape(c, s) && Done(s)
  }

  lemma DoneStays(c: Config, s: State, step: Step)
    requires Done(s) && Enabled(c, s, step)
    ensures Done(Apply(c, s, step))
  {
  }

  lemma StillWinding(c: Config, s: State, step: Step)
    requires Usable(c) && Winding(c, s) && Enabled(c, s, step) && !step.Publish?
    ensures Winding(c, Apply(c, s, step)) && Work(c, Apply(c, s, step)) <= Work(c, s)
    ensures Works(s, step) ==> Work(c, Apply(c, s, step)) < Work(c, s)
  {
    ShapeStep(c, s, step);
    WorkDecreases(c, s, step);
    DoneStays(c, s, step);
  }

  lemma {:induction false} DrainPlan(c: Config, s: State) returns (steps: seq<Step>)
    requires Usable(c) && Winding(c, s)
    ensures Legal(c, s, steps) && NoPublish(steps) && Finished(Exec(c, s, steps))
    decreases Work(c, s)
  {
    if Finished(s) {
      steps := [];
    } else {
      var step := Choice(c, s.b, s.workers);
      NextWork(c, s);
      StillWinding(c, s, step);
      steps := DrainPlan(c, Apply(c, s, step));
      PrependStep(c, s, step, steps);
      steps := [step] + steps;
    }
  }

  /** From wherever a shutdown stands, some schedule of the goroutines lets Close return. */
  lemma DrainCanFinish(c: Config, s: State)
    requires Usable(c) && Reachable(c, s) && Done(s)
    ensures exists steps :: Legal(c, s, steps) && NoPublish(steps) && Finished(Exec(c, s, steps))
  {
    ReachableInv(c, s);
    var steps := DrainPlan(c, s);
  }

  // ----- infinite runs -----

  /** A run given by its states and steps, for ever. */
  ghost predicate Trace(c: Config, run: nat -> State, sched: nat -> Step) {
    forall i: nat :: Enabled(c, run(i), sched(i)) && run(i + 1) == Apply(c, run(i), sched(i))
  }

  /** What one goroutine, or one arm of the batching select, is waiting to do. */
  datatype Turn = DoneTurn | SendTurn | DrainTurn | WorkerTurn(w: nat)

  predicate Takes(turn: Turn, step: Step) {
    match turn
    case DoneTurn => step.DoneArm?
    case SendTurn => step.Send?
    case DrainTurn => step.DrainReceive? || step.DrainStop?
    case WorkerTurn(w) => step == Take(w) || step == WorkerExit(w) || (step.Flush? && step.w == w)
  }

  ghost predicate DueFrom(c: Config, run: nat -> State, turn: Turn, n: nat) {
    forall i: nat :: n <= i ==> exists step :: Takes(turn, step) && Enabled(c, run(i), step)
  }

  ghost predicate TakenFrom(sched: nat -> Step, turn: Turn, n: nat) {
    exists i: nat :: n <= i && Takes(turn, sched(i))
  }

  /** Weak fairness: a turn that stays possible for ever is taken at some time. Nothing is said of
      ticks, receives, merges or the end of Close's wait, which may come at any time or never. */
  ghost predicate Fair(c: Config, run: nat -> State, sched: nat -> Step) {
    forall turn, n: nat :: DueFrom(c, run, turn, n) ==> TakenFrom(sched, turn, n)
  }

  ghost predicate QuietFrom(sched: nat -> Step, n: nat) {
    forall i: nat :: n <= i ==> !sched(i).Publish?
  }

  lemma {:induction false} StepsLater(c: Config, run: nat -> State, sched: nat -> Step, n: nat, m: nat)
    requires Usable(c) && Trace(c, run, sched) && QuietFrom(sched, n) && n <= m
    requires Winding(c, run(n))
    ensures Winding(c, run(m)) && Work(c, run(m)) <= Work(c, run(n))
    decreases m - n
  {
    if n < m {
      assert Enabled(c, run(n), sched(n)) && run(n + 1) == Apply(c, run(n), sched(n));
      StillWinding(c, run(n), sched(n));
      StepsLater(c, run, sched, n + 1, m);
    }
  }

  ghost predicate WorksAt(run: nat -> State, sched: nat -> Step, i: nat) {
    Works(run(i), sched(i))
  }

  /** As long as no step works, the channels and the workers stand still. */
  lemma {:induction false} StandsStill(c: Config, run: nat -> State, sched: nat -> Step, n: nat, m: nat)
    requires Usable(c) && Trace(c, run, sched) && QuietFrom(sched, n) && n <= m
    requires Winding(c, run(n)) && forall i: nat :: n <= i < m ==> !WorksAt(run, sched, i)
    ensures Winding(c, run(m)) && run(m).b == run(n).b && run(m).workers == run(n).workers
    decreases m - n
  {
    if n < m {
      assert Enabled(c, run(n), sched(n)) && run(n + 1) == Apply(c, run(n), sched(n));
      assert !WorksAt(run, sched, n);
      StillWinding(c, run(n), sched(n));
      IdleStepKeepsWork(c, run(n), sched(n));
      StandsStill(c, run, sched, n + 1, m);
    }
  }

  ghost function TurnOf(step: Step): Turn {
    match step
    case DoneArm => DoneTurn
    case Send => SendTurn
    case Take(w) => WorkerTurn(w)
    case Flush(w, _) => WorkerTurn(w)
    case WorkerExit(w) => WorkerTurn(w)
    case _ => DrainTurn
  }

  /** Whose turn the next working step is depends on the channels and the workers only. */
  lemma NextTurn(c: Config, s: State, t: State)
    requires Usable(c) && Winding(c, s) && !Finished(s)
    requires Winding(c, t) && t.b == s.b && t.workers == s.workers
    ensures exists step :: Takes(TurnOf(Choice(c, s.b, s.workers)), step) && Enabled(c, t, step)
  {
    NextWork(c, t);
    var next := Choice(c, t.b, t.workers);
    assert Takes(TurnOf(next), next);
  }

  lemma StandstillIsDue(c: Config, run: nat -> State, sched: nat -> Step, n: nat)
    requires Usable(c) && Trace(c, run, sched) && QuietFrom(sched, n)
    requires Winding(c, run(n)) && !Finished(run(n)) && forall i: nat :: n <= i ==> !WorksAt(run, sched, i)
    ensures exists turn :: DueFrom(c, run, turn, n)
  {
    var turn := TurnOf(Choice(c, run(n).b, run(n).workers));
    forall i: nat | n <= i ensures exists step :: Takes(turn, step) && Enabled(c, run(i), step) {
      StandsStill(c, run, sched, n, i);
      NextTurn(c, run(n), run(i));
    }
    assert DueFrom(c, run, turn, n);
  }

  lemma DueIsTaken(c: Config, run: nat -> State, sched: nat -> Step, n: nat, turn: Turn)
    requires Fair(c, run, sched) && DueFrom(c, run, turn, n)
    ensures exists j: nat :: n <= j && WorksAt(run, sched, j)
  {
    assert TakenFrom(sched, turn, n);
    var j: nat :| n <= j && Takes(turn, sched(j));
    assert WorksAt(run, sched, j);
  }

  /** A fair scheduler does not put off the drain for ever. */
  lemma SomeWorkFollows(c: Config, run: nat -> State, sched: nat -> Step, n: nat)
    requires Usable(c) && Trace(c, run, sched) && Fair(c, run, sched) && QuietFrom(sched, n)
    requires Winding(c, run(n)) && !Finished(run(n))
    ensures exists j: nat :: n <= j && WorksAt(run, sched, j)
  {
    if forall j: nat :: n <= j ==> !WorksAt(run, sched, j) {
      StandstillIsDue(c, run, sched, n);
      var turn :| DueFrom(c, run, turn, n);
      DueIsTaken(c, run, sched, n, turn);
    }
  }

  lemma {:induction false} DrainFrom(c: Config, run: nat -> State, sched: nat -> Step, n: nat)
    requires Usable(c) && Trace(c, run, sched) && Fair(c, run, sched) && QuietFrom(sched, n)
    requires Winding(c, run(n))
    ensures exists m: nat :: n <= m && Finished(run(m))
    decreases Work(c, run(n))
  {
    if !Finished(run(n)) {
      SomeWorkFollows(c, run, sched, n);
      var j: nat :| n <= j && WorksAt(run, sched, j);
      StepsLater(c, run, sched, n, j);
      assert Enabled(c, run(j), sched(j)) && run(j + 1) == Apply(c, run(j), sched(j));
      StillWinding(c, run(j), sched(j));
      DrainFrom(c, run, sched, j + 1);
      var m: nat :| j + 1 <= m && Finished(run(m));
      assert n <= m;
    }
  }

  lemma {:induction false} ShapeAlong(c: Config, run: nat -> State, sched: nat -> Step, n: nat)
    requires Usable(c) && Trace(c, run, sched) && run(0) == Init()
    ensures Shape(c, run(n))
  {
    if n == 0 {
    } else {
      ShapeAlong(c, run, sched, n - 1);
      assert Enabled(c, run(n - 1), sched(n - 1)) && run(n) == Apply(c, run(n - 1), sched(n - 1));
      ShapeStep(c, run(n - 1), sched(n - 1));
    }
  }

  /** Every weakly fair run in which nobody publishes any more after some moment past the start
      of Close reaches a state where every goroutine has returned and no batch is left: no
      schedule keeps the drain going for ever. */
  lemma FairRunsDrain(c: Config, run: nat -> State, sched: nat -> Step, n: nat)
    requires Usable(c) && Trace(c, run, sched) && run(0) == Init() && Fair(c, run, sched)
    requires Done(run(n)) && QuietFrom(sched, n)
    ensures exists m: nat :: n <= m && Finished(run(m)) && run(m).b.queue == []
  {
    ShapeAlong(c, run, sched, n);
    DrainFrom(c, run, sched, n);
    var m: nat :| n <= m && Finished(run(m));
    ShapeAlong(c, run, sched, m);
    assert run(m).workers[0].Gone?;
  }

  /** The trigger channel is closed once: after that it is never sent to, nothing more is
      dispatched, and the goroutine never comes back. */
  lemma ClosedForGood(c: Config, s: State, step: Step)
    requires s.b.phase.Exited? && Enabled(c, s, step)
    ensures !step.Send? && !step.DrainStop?
    ensures var t := Apply(c, s, step); t.b.phase.Exited? && t.dispatched == s.dispatched && t.exitMark == s.exitMark
  {
  }

  // ----- Close -----

  lemma FinishedIsEmpty(c: Config, s: State)
    requires Usable(c) && Inv(c, s) && Finished(s)
    ensures s.b.queue == [] && Working(s.b.phase) == [] && HeldBag(s.workers) == multiset{}
    ensures multiset(s.accepted[..s.exitMark]) == ResolvedEvents(s) && s.exitMark <= |s.accepted|
    ensures s.b.ch == s.accepted[s.exitMark..]
  {
    assert s.workers[0].Gone? && s.workers[1].Gone? && s.workers[2].Gone? && s.workers[3].Gone?;
    var d := Flatten(s.dispatched);
    assert d + [] + s.b.ch == d + s.b.ch == s.accepted;
    assert d == s.accepted[..s.exitMark];
    BagIsFlatten(s.dispatched);
    assert s.dispatched == s.taken;
    assert Bag(s.taken) == ResolvedEvents(s);
  }

  /** When Close returns because the goroutines finished: everything admitted before the drain
      ended is persisted, or abandoned after every attempt; and no Flush attempt follows the
      closing of the repository. */
  lemma CleanClose(c: Config, s: State)
    requires Usable(c) && Reachable(c, s) && s.clean
    ensures Finished(s) && s.b.queue == [] && |s.workers| == WORKERS && HeldBag(s.workers) == multiset{}
    ensures s.exitMark <= |s.accepted|
    ensures multiset(s.accepted[..s.exitMark]) == ResolvedBag(s.resolved, true) + ResolvedBag(s.resolved, false)
    ensures forall r <- s.resolved :: if r.ok then Persisted(s.table, r.batch) else r.tries == c.attempts
    ensures !s.lateFlush
  {
    ReachableInv(c, s);
    FinishedIsEmpty(c, s);
  }

  /** Publish never looks at `done`: what is left in the channel at the end is exactly what was
      admitted after the drain found it empty. */
  lemma StrandedIff(c: Config, s: State)
    requires Usable(c) && Reachable(c, s) && Finished(s)
    ensures s.exitMark <= |s.accepted| && s.b.ch == s.accepted[s.exitMark..]
    ensures multiset(s.accepted) == ResolvedEvents(s) <==> |s.accepted| == s.exitMark
  {
    ReachableInv(c, s);
    FinishedIsEmpty(c, s);
    assert s.accepted == s.accepted[..s.exitMark] + s.accepted[s.exitMark..];
    assert multiset(s.accepted) == ResolvedEvents(s) + multiset(s.b.ch);
    assert |multiset(s.accepted)| == |ResolvedEvents(s)| + |s.b.ch|;
    if |s.accepted| == s.exitMark { assert s.accepted[..s.exitMark] == s.accepted; }
  }

  /** If the server shut down with no handler left, nothing is stranded. */
  lemma QuietServerStrandsNothing(c: Config, s: State)
    requires Usable(c) && Reachable(c, s) && Finished(s) && s.quiet
    ensures s.b.ch == [] && multiset(s.accepted) == ResolvedEvents(s)
  {
    ReachableInv(c, s);
    StrandedIff(c, s);
  }
}

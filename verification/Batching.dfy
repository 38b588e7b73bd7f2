/** How full the batches and the buffer get: a batch is cut short only by the ticker or by the
    drain, and the bound on the backlog is reached for every configuration. */
module Batching {
  import opened Events
  import opened BufferProtocol
  import opened BufferRuns

  // ----- short batches -----

  /** Only these steps send a batch off before it is full. */
  predicate Cuts(step: Step) {
    step.Tick? || step.DoneArm? || step.DrainStop?
  }

  function CutsIn(steps: seq<Step>): nat {
    if steps == [] then 0 else (if Cuts(steps[0]) then 1 else 0) + CutsIn(steps[1..])
  }

  function ShortOnes(c: Config, bs: seq<Batch>): nat {
    if bs == [] then 0
    else ShortOnes(c, bs[..|bs| - 1]) + if |bs[|bs| - 1]| < c.batchSize then 1 else 0
  }

  lemma ShortAppend(c: Config, bs: seq<Batch>, b: Batch)
    ensures ShortOnes(c, bs + [b]) == ShortOnes(c, bs) + if |b| < c.batchSize then 1 else 0
  {
    assert (bs + [b])[..|bs|] == bs;
  }

  /** Short batches dispatched or about to be. */
  function Short(c: Config, dispatched: seq<Batch>, p: Phase): nat {
    ShortOnes(c, dispatched) + if p.Sending? && |p.out| < c.batchSize then 1 else 0
  }

  lemma ShortStep(c: Config, s: State, step: Step)
    requires Usable(c) && ChannelShape(c, s.b) && Enabled(c, s, step)
    ensures var t := Apply(c, s, step);
      Short(c, t.dispatched, t.b.phase) <= Short(c, s.dispatched, s.b.phase) + if Cuts(step) then 1 else 0
  {
    if step.Send? { ShortAppend(c, s.dispatched, s.b.phase.out); }
  }

  lemma {:induction false} ShortRun(c: Config, s: State, steps: seq<Step>)
    requires Usable(c) && ChannelShape(c, s.b) && Legal(c, s, steps)
    ensures var t := Exec(c, s, steps);
      Short(c, t.dispatched, t.b.phase) <= Short(c, s.dispatched, s.b.phase) + CutsIn(steps)
    decreases |steps|
  {
    if steps == [] {
    } else {
      ShortStep(c, s, steps[0]);
      ChannelShapeStep(c, s, steps[0]);
      ShortRun(c, Apply(c, s, steps[0]), steps[1..]);
    }
  }

  /** In every run there are at most as many short batches as ticks, done signals and drained
      batches. */
  lemma ShortBatchesAreCut(c: Config, steps: seq<Step>)
    requires Usable(c) && Legal(c, Init(), steps)
    ensures ShortOnes(c, Exec(c, Init(), steps).dispatched) <= CutsIn(steps)
  {
    ShortRun(c, Init(), steps);
  }

  lemma {:induction false} NoneShort(c: Config, bs: seq<Batch>)
    requires ShortOnes(c, bs) == 0
    ensures forall i :: 0 <= i < |bs| ==> |bs[i]| >= c.batchSize
  {
    if bs == [] {
    } else {
      NoneShort(c, bs[..|bs| - 1]);
    }
  }

  /** While neither the ticker nor the shutdown cuts in, every dispatched batch is full. */
  lemma FullUnlessCut(c: Config, steps: seq<Step>)
    requires Usable(c) && Legal(c, Init(), steps) && CutsIn(steps) == 0
    ensures forall i :: 0 <= i < |Exec(c, Init(), steps).dispatched| ==>
      |Exec(c, Init(), steps).dispatched[i]| == c.batchSize
  {
    var s := Exec(c, Init(), steps);
    ShortBatchesAreCut(c, steps);
    NoneShort(c, s.dispatched);
    assert Reachable(c, s);
    FirstInFirstOut(c, s);
  }

  // ----- the backlog bound is reached -----

  /** Nothing has been resolved yet, and nothing keeps clients from publishing. */
  ghost predicate Filling(c: Config, s: State) {
    Reachable(c, s) && !s.quiet && s.resolved == [] && |s.workers| == WORKERS
  }

  /** The batch in hand fills up from an empty channel. */
  lemma {:induction false} FillBatch(c: Config, s: State, e: Event) returns (t: State)
    requires Usable(c) && Filling(c, s) && s.b.phase.Select? && s.b.ch == []
    ensures Filling(c, t) && t.workers == s.workers && t.b.queue == s.b.queue && t.b.ch == []
    ensures t.b.phase.Sending? && |t.b.phase.out| == c.batchSize && t.b.phase.next.ToSelect?
    decreases c.batchSize - |s.b.phase.batch|
  {
    ReachableInv(c, s);
    ReachableStep(c, s, Publish(e));
    var s1 := Apply(c, s, Publish(e));
    assert s1.b == s.b.(ch := [e]);
    ReachableStep(c, s1, Receive);
    var s2 := Apply(c, s1, Receive);
    if s2.b.phase.Sending? {
      t := s2;
    } else {
      t := FillBatch(c, s2, e);
    }
  }

  /** One more full batch in the queue. */
  lemma FillSlot(c: Config, s: State, e: Event) returns (t: State)
    requires Usable(c) && Filling(c, s) && s.b.phase.Select? && s.b.ch == [] && |s.b.queue| < QUEUE_SLOTS
    ensures Filling(c, t) && t.workers == s.workers && t.b.phase.Select? && t.b.ch == []
    ensures |t.b.queue| == |s.b.queue| + 1 && t.b.queue[..|s.b.queue|] == s.b.queue
    ensures |t.b.queue[|s.b.queue|]| == c.batchSize
  {
    t := FillBatch(c, s, e);
    ReachableStep(c, t, Send);
    t := Apply(c, t, Send);
  }

  ghost predicate Full(c: Config, ws: seq<Worker>, n: nat) {
    forall i :: 0 <= i < n && i < |ws| ==> ws[i].Busy? && |ws[i].batch| == c.batchSize
  }

  /** One more worker holds a full batch. */
  lemma FillWorker(c: Config, s: State, e: Event, w: nat) returns (t: State)
    requires Usable(c) && Filling(c, s) && s.b.phase.Select? && s.b.ch == [] && s.b.queue == []
    requires w < WORKERS && s.workers[w].Idle?
    ensures Filling(c, t) && t.b.phase.Select? && t.b.ch == [] && t.b.queue == []
    ensures exists batch :: |batch| == c.batchSize && t.workers == s.workers[w := Busy(batch, 0)]
  {
    t := FillSlot(c, s, e);
    ReachableStep(c, t, Take(w));
    var batch := t.b.queue[0];
    t := Apply(c, t, Take(w));
    assert t.workers == s.workers[w := Busy(batch, 0)];
  }

  lemma {:induction false} FillWorkers(c: Config, s: State, e: Event, w: nat) returns (t: State)
    requires Usable(c) && Filling(c, s) && s.b.phase.Select? && s.b.ch == [] && s.b.queue == []
    requires w <= WORKERS && Full(c, s.workers, w) && forall i :: w <= i < WORKERS ==> s.workers[i].Idle?
    ensures Filling(c, t) && t.b.phase.Select? && t.b.ch == [] && t.b.queue == [] && Full(c, t.workers, WORKERS)
    decreases WORKERS - w
  {
    if w == WORKERS {
      t := s;
    } else {
      var t1 := FillWorker(c, s, e, w);
      t := FillWorkers(c, t1, e, w + 1);
    }
  }

  ghost predicate FullQueue(c: Config, q: seq<Batch>) {
    forall i :: 0 <= i < |q| ==> |q[i]| == c.batchSize
  }

  lemma {:induction false} FillQueue(c: Config, s: State, e: Event) returns (t: State)
    requires Usable(c) && Filling(c, s) && s.b.phase.Select? && s.b.ch == []
    requires |s.b.queue| <= QUEUE_SLOTS && FullQueue(c, s.b.queue)
    ensures Filling(c, t) && t.workers == s.workers && t.b.phase.Select? && t.b.ch == []
    ensures |t.b.queue| == QUEUE_SLOTS && FullQueue(c, t.b.queue)
    decreases QUEUE_SLOTS - |s.b.queue|
  {
    if |s.b.queue| == QUEUE_SLOTS {
      t := s;
    } else {
      var n := |s.b.queue|;
      var t1 := FillSlot(c, s, e);
      assert forall i :: 0 <= i < n ==> t1.b.queue[i] == t1.b.queue[..n][i];
      t := FillQueue(c, t1, e);
    }
  }

  lemma {:induction false} FillChannel(c: Config, s: State, e: Event) returns (t: State)
    requires Usable(c) && Filling(c, s) && |s.b.ch| <= c.capacity
    ensures Filling(c, t) && t.workers == s.workers && t.b.phase == s.b.phase && t.b.queue == s.b.queue
    ensures |t.b.ch| == c.capacity
    decreases c.capacity - |s.b.ch|
  {
    if |s.b.ch| == c.capacity {
      t := s;
    } else {
      ReachableStep(c, s, Publish(e));
      t := FillChannel(c, Apply(c, s, Publish(e)), e);
    }
  }

  lemma FourBatches(c: Config, q: seq<Batch>)
    requires |q| == 4 && FullQueue(c, q)
    ensures |Bag(q)| == 4 * c.batchSize
  {
    BagAppend([], q[0]);
    BagAppend([q[0]], q[1]);
    BagAppend([q[0], q[1]], q[2]);
    BagAppend([q[0], q[1], q[2]], q[3]);
    assert [] + [q[0]] == [q[0]] && [q[0]] + [q[1]] == [q[0], q[1]] && [q[0], q[1]] + [q[2]] == [q[0], q[1], q[2]];
    assert q == [q[0], q[1], q[2]] + [q[3]];
  }

  lemma FullSize(c: Config, s: State)
    requires |s.workers| == WORKERS && Full(c, s.workers, WORKERS)
    requires |s.b.queue| == QUEUE_SLOTS && FullQueue(c, s.b.queue)
    requires |Working(s.b.phase)| == c.batchSize && |s.b.ch| == c.capacity
    ensures |Pending(s)| == c.capacity + 9 * c.batchSize
  {
    var ws, q := s.workers, s.b.queue;
    assert |Held(ws[0])| == |Held(ws[1])| == |Held(ws[2])| == |Held(ws[3])| == c.batchSize;
    assert |HeldBag(ws)| == 4 * c.batchSize;
    FourBatches(c, q);
  }

  /** For every configuration some run fills the channel, the batch in hand, four queued batches
      and four in flight: the backlog bound is as small as it can be. */
  lemma BacklogBoundIsReached(c: Config, e: Event)
    requires Usable(c)
    ensures exists s :: Reachable(c, s) && |s.accepted| - |ResolvedEvents(s)| == c.capacity + 9 * c.batchSize
  {
    assert Legal(c, Init(), []) && Exec(c, Init(), []) == Init();
    var s1 := FillWorkers(c, Init(), e, 0);
    var s2 := FillQueue(c, s1, e);
    var s3 := FillBatch(c, s2, e);
    var s := FillChannel(c, s3, e);
    FullSize(c, s);
    Conservation(c, s);
    assert |multiset(s.accepted)| == |ResolvedEvents(s)| + |Pending(s)|;
  }
}

/** The methods of internal/buffer/buffer.go on the heap: one working array reused for every
    batch, a fresh array handed over for each dispatched one. Each method is proved to take the
    steps of the state machine in BufferProtocol. A goroutine that blocks is left at the place
    where it waits; the method that resumes it may run once what it waits for is there. */
module Buffers {
  import opened Arithmetic
  import opened Results
  import opened Events
  import opened Stores
  import opened BufferProtocol
  import opened Backoff

  datatype PublishError = ContextCancelled | AtCapacity

  datatype CloseError = ContextExpired

  /** Where `runFlush` is: at its select, at the send inside `dispatch`, at the top of the drain
      loop, or returned. */
  datatype Place = InSelect | InDispatch(next: Next) | InDrain | Returned

  ghost function Contents(q: seq<array<Event>>): (bs: seq<Batch>)
    reads q
    ensures |bs| == |q| && forall i :: 0 <= i < |q| ==> bs[i] == q[i][..]
  {
    seq(|q|, i requires 0 <= i < |q| reads q => q[i][..])
  }

  /** All the receives of one `drainBatch`. */
  ghost function DrainAll(c: Config, b: Channels): (r: Channels)
    requires b.phase.Draining? && |b.phase.batch| <= c.batchSize
    ensures r.phase.Draining? && r.queue == b.queue && CanDrainStop(c, r)
    decreases |b.ch|
  {
    if CanDrainReceive(c, b) then DrainAll(c, DoDrainReceive(b)) else b
  }

  /** It takes as many events as there are, up to a full batch, in order. */
  lemma {:induction false} DrainAllTakes(c: Config, b: Channels)
    requires b.phase.Draining? && |b.phase.batch| <= c.batchSize
    ensures var n := Min(|b.ch|, c.batchSize - |b.phase.batch|);
      DrainAll(c, b) == Channels(b.ch[n..], Draining(b.phase.batch + b.ch[..n]), b.queue)
    decreases |b.ch|
  {
    var n := Min(|b.ch|, c.batchSize - |b.phase.batch|);
    if n == 0 {
      assert b.ch[0..] == b.ch && b.phase.batch + b.ch[..0] == b.phase.batch;
    } else {
      DrainAllTakes(c, DoDrainReceive(b));
      assert b.ch[1..][n - 1..] == b.ch[n..];
      assert b.phase.batch + [b.ch[0]] + b.ch[1..][..n - 1] == b.phase.batch + b.ch[..n];
    }
  }

  lemma MoveOne(taken: seq<Event>, left: seq<Event>)
    requires left != []
    ensures taken + [left[0]] + left[1..] == taken + left
  {
  }

  /** A batch and a rest that make up the channel, one of them at its limit. */
  lemma DrainedExactly(c: Config, b: Channels, batch: Batch, rest: seq<Event>)
    requires b.phase == Draining([]) && batch + rest == b.ch
    requires |batch| == c.batchSize || (|batch| < c.batchSize && rest == [])
    ensures DrainAll(c, b) == Channels(rest, Draining(batch), b.queue)
  {
    DrainAllTakes(c, b);
    assert b.ch[..|batch|] == batch && b.ch[|batch|..] == rest && [] + batch == batch;
  }

  /** The queue holds distinct arrays of 1 to `batchSize` events, all of them handed over. */
  ghost predicate QueueShape(q: seq<array<Event>>, handed: set<array<Event>>, batchSize: nat) {
    && |q| <= QUEUE_SLOTS
    && (forall i :: 0 <= i < |q| ==> q[i] in handed && 1 <= q[i].Length <= batchSize)
    && (forall i, j :: 0 <= i < j < |q| ==> q[i] != q[j])
  }

  class Buffer {
    const cfg: Config
    var ch: seq<Event>
    var done: bool
    var place: Place
    var slot: array<Event>
    var len: nat
    /** The copy made by the last `dispatch`. */
    var out: array<Event>
    var flushTrigger: seq<array<Event>>
    /** The wait group: `runFlush` and the workers still running. */
    var wg: nat
    /** Every array ever made for the trigger channel: waiting, queued or with a worker. */
    ghost var handed: set<array<Event>>

    ghost function WorkersLeft(): int
      reads this
    {
      if place.Returned? then wg else wg - 1
    }

    ghost predicate Valid()
      reads this, slot, flushTrigger
    {
      && Usable(cfg)
      && |ch| <= cfg.capacity
      && slot.Length == cfg.batchSize && len <= cfg.batchSize && (place.InSelect? ==> len < cfg.batchSize)
      && slot !in handed
      && QueueShape(flushTrigger, handed, cfg.batchSize)
      && (place.InDispatch? ==> out in handed && out !in flushTrigger && 1 <= out.Length <= cfg.batchSize)
      && (place.InSelect? || place == InDispatch(ToSelect) || done)
      && 0 <= WorkersLeft() <= WORKERS && (WorkersLeft() < WORKERS ==> place.Returned? && flushTrigger == [])
    }

    ghost function View(): Channels
      reads this, slot, out, flushTrigger
      requires Valid()
    {
      Channels(ch,
               match place
               case InSelect => Select(slot[..len])
               case InDispatch(next) => Sending(out[..], next)
               case InDrain => Draining([])
               case Returned => Exited,
               Contents(flushTrigger))
    }

    /** `New` and `Start`, with the workers running and `runFlush` at its first select. */
    constructor (capacity: int, flushBatchSize: int, flushRetries: int, calendar: Calendar)
      ensures Valid() && View() == Init().b && !done && handed == {}
      ensures cfg == Configure(capacity, flushBatchSize, flushRetries, calendar)
      ensures cfg.capacity == if capacity <= 0 then 1000 else capacity
      ensures slot.Length == cfg.batchSize == if flushBatchSize <= 0 then 1000 else flushBatchSize
      ensures wg == WORKERS + 1 && fresh(slot)
    {
      cfg := Configure(capacity, flushBatchSize, flushRetries, calendar);
      ch, done, place, len, flushTrigger, wg, handed := [], false, InSelect, 0, [], WORKERS + 1, {};
      slot := new Event[Configure(capacity, flushBatchSize, flushRetries, calendar).batchSize];
      out := new Event[0];
    }

    /** Never blocks: refuses when the context is over or the channel is full. */
    method Publish(cancelled: bool, e: Event) returns (err: Option<PublishError>)
      requires Valid()
      modifies this`ch
      ensures Valid()
      ensures err == if cancelled then Some(ContextCancelled)
                     else if CanPublish(cfg, old(View())) then None else Some(AtCapacity)
      ensures View() == if err.None? then DoPublish(old(View()), e) else old(View())
      ensures err == Some(ContextCancelled) <==> cancelled
      ensures err == Some(AtCapacity) <==> !cancelled && |old(ch)| == cfg.capacity
      ensures ch == if err.None? then old(ch) + [e] else old(ch)
    {
      if cancelled {
        return Some(ContextCancelled);
      }
      if |ch| < cfg.capacity {
        ch := ch + [e];
        return None;
      }
      return Some(AtCapacity);
    }

    /** `dispatch` up to its send: copies `batch[..n]`; nothing to send when that is empty. */
    method Dispatch(batch: array<Event>, n: nat, next: Next)
      requires Valid() && n <= batch.Length && n <= cfg.batchSize
      requires if next.ToSelect? then place.InSelect? else done && !place.Returned?
      modifies this`place, this`out, this`handed
      ensures Valid()
      ensures place == if n > 0 then InDispatch(next) else if next.ToSelect? then InSelect else InDrain
      ensures if n > 0 then fresh(out) && out[..] == batch[..n] && handed == old(handed) + {out}
              else out == old(out) && handed == old(handed)
    {
      if n == 0 {
        place := if next.ToSelect? then InSelect else InDrain;
        return;
      }
      var copy := new Event[n];
      for i := 0 to n
        modifies copy
        invariant copy[..i] == batch[..i]
      {
        copy[i] := batch[i];
      }
      assert copy[..] == copy[..n] == batch[..n];
      out, place, handed := copy, InDispatch(next), handed + {copy};
    }

    /** The send of `dispatch`, once the trigger channel has room; back in the select, the working
        batch is cut to nothing. */
    method Send()
      requires Valid() && place.InDispatch? && |flushTrigger| < 4
      modifies this`place, this`len, this`flushTrigger
      ensures Valid() && place == if old(place).next.ToSelect? then InSelect else InDrain
      ensures View() == DoSend(old(View()))
      ensures flushTrigger == old(flushTrigger) + [out]
      ensures old(place).next.ToSelect? ==> len == 0
    {
      flushTrigger := flushTrigger + [out];
      if place.next.ToSelect? {
        len := 0;
        place := InSelect;
      } else {
        place := InDrain;
      }
    }

    /** `batch = append(batch, <-ch)`: no array handed over is touched. */
    method Append()
      requires Valid() && place.InSelect? && ch != []
      modifies this`ch, slot
      ensures Valid() && ch == old(ch[1..])
      ensures slot[..len + 1] == old(slot[..len]) + [old(ch[0])]
      ensures Contents(flushTrigger) == old(Contents(flushTrigger))
      ensures forall a <- handed :: a[..] == old(a[..])
    {
      var e := ch[0];
      ch := ch[1..];
      slot[len] := e;
    }

    /** `append` filled the batch: dispatches all of it. */
    method DispatchFull()
      requires Valid() && place.InSelect? && len + 1 == cfg.batchSize
      modifies this`len, this`place, this`out, this`handed
      ensures Valid()
      ensures View() == old(View()).(phase := Sending(old(slot[..len + 1]), ToSelect))
      ensures old(handed) <= handed && fresh(handed - old(handed))
    {
      Dispatch(slot, len + 1, ToSelect);
      len := len + 1;
    }

    /** The select arm that receives an event. */
    method OnEvent()
      requires Valid() && place.InSelect? && ch != []
      modifies this`ch, this`len, this`place, this`out, this`handed, slot
      ensures Valid()
      ensures View() == DoReceive(cfg, old(View()))
      ensures ch == old(ch[1..])
      ensures place.InSelect? <==> old(len) + 1 < cfg.batchSize
      ensures place.InSelect? ==> slot[..len] == old(slot[..len]) + [old(ch[0])]
      ensures !place.InSelect? ==>
        place == InDispatch(ToSelect) && out.Length == cfg.batchSize && out[..] == old(slot[..len]) + [old(ch[0])]
      ensures forall a <- old(handed) :: a[..] == old(a[..])
      ensures old(handed) <= handed && fresh(handed - old(handed))
    {
      Append();
      if len + 1 >= cfg.batchSize {
        DispatchFull();
      } else {
        len := len + 1;
      }
    }

    /** The select arm of the ticker. */
    method OnTick()
      requires Valid() && place.InSelect?
      modifies this`place, this`out, this`handed
      ensures Valid()
      ensures View() == DoTick(old(View()))
      ensures if old(len) == 0 then place.InSelect? else place == InDispatch(ToSelect) && out[..] == slot[..old(len)]
      ensures old(handed) <= handed && fresh(handed - old(handed))
    {
      Dispatch(slot, len, ToSelect);
    }

    /** The select arm of `done`, up to the drain loop. */
    method OnDone()
      requires Valid() && place.InSelect? && done
      modifies this`place, this`out, this`handed
      ensures Valid()
      ensures View() == DoDone(old(View()))
      ensures if old(len) == 0 then place.InDrain? else place == InDispatch(ToDrain) && out[..] == slot[..old(len)]
      ensures old(handed) <= handed && fresh(handed - old(handed))
    {
      Dispatch(slot, len, ToDrain);
    }

    /** Receives until the batch is full or the channel is empty. */
    method DrainBatch() returns (batch: array<Event>, n: nat)
      requires Valid() && place.InDrain?
      modifies this`ch
      ensures Valid() && fresh(batch) && n <= batch.Length == cfg.batchSize
      ensures var d := DrainAll(cfg, old(View()));
        d.phase.batch == batch[..n] && d.ch == ch && View() == d.(phase := Draining([]))
      ensures n == Min(|old(ch)|, cfg.batchSize)
      ensures batch[..n] + ch == old(ch)
    {
      batch := new Event[cfg.batchSize];
      n := 0;
      ghost var start := View();
      while n < cfg.batchSize
        invariant n <= cfg.batchSize && batch.Length == cfg.batchSize
        modifies this`ch, batch
        invariant batch[..n] + ch == start.ch
        invariant Contents(flushTrigger) == start.queue
      {
        if ch == [] {
          break;
        }
        ghost var taken, left := batch[..n], ch;
        batch[n] := ch[0];
        ch := ch[1..];
        n := n + 1;
        MoveOne(taken, left);
        assert batch[..n] == taken + [left[0]];
      }
      DrainedExactly(cfg, start, batch[..n], ch);
    }

    /** One round of the drain loop: an empty batch ends the goroutine. */
    method DrainRound()
      requires Valid() && place.InDrain?
      modifies this`ch, this`place, this`out, this`handed, this`wg
      ensures Valid()
      ensures View() == DoDrainStop(DrainAll(cfg, old(View())))
      ensures place.Returned? <==> old(ch) == []
      ensures !place.Returned? ==>
        place == InDispatch(ToDrain) && out[..] + ch == old(ch) && out.Length == Min(|old(ch)|, cfg.batchSize)
      ensures old(handed) <= handed && fresh(handed - old(handed))
      ensures wg == if place.Returned? then old(wg) - 1 else old(wg)
    {
      var batch, n := DrainBatch();
      if n == 0 {
        place := Returned;
        wg := wg - 1;
      } else {
        Dispatch(batch, n, ToDrain);
      }
    }

    /** A worker receives from the trigger channel. */
    method TakeBatch() returns (batch: array<Event>)
      requires Valid() && flushTrigger != []
      modifies this`flushTrigger
      ensures Valid() && batch in handed && batch != slot
      ensures [batch] + flushTrigger == old(flushTrigger)
      ensures batch[..] == old(View()).queue[0] && batch !in flushTrigger
      ensures View() == old(View()).(queue := old(View()).queue[1..])
    {
      batch := flushTrigger[0];
      flushTrigger := flushTrigger[1..];
    }

    /** A worker finds the trigger channel closed and empty. */
    method WorkerExit()
      requires Valid() && place.Returned? && flushTrigger == [] && wg > 0
      modifies this`wg
      ensures Valid() && View() == old(View()) && wg == old(wg) - 1
    {
      wg := wg - 1;
    }

    /** `Close` up to its wait: the first call signals, a later one returns nil at once. */
    method Close() returns (waits: bool)
      requires Valid()
      modifies this`done
      ensures Valid() && View() == old(View()) && done
      ensures waits == !old(done)
    {
      if done {
        return false;
      }
      done := true;
      return true;
    }

    /** The wait of Close, once the goroutines have finished or the context has expired; when both
        are so, `luck` is the arm the select takes. Nil means that the goroutine and the workers
        have returned and nothing is queued. */
    method AwaitClose(expired: bool, luck: bool) returns (err: Option<CloseError>)
      requires Valid() && done && (wg == 0 || expired)
      ensures err.None? <==> wg == 0 && (luck || !expired)
      ensures err.None? ==> WorkersLeft() == 0 && View().phase.Exited? && View().queue == []
    {
      err := if wg == 0 && (luck || !expired) then None else Some(ContextExpired);
    }
  }

  // ----- the arms are runs of the state machine -----

  ghost predicate OnlyDrainReceives(steps: seq<Step>) {
    forall i :: 0 <= i < |steps| ==> steps[i] == DrainReceive
  }

  /** The drain receives are a run of DrainReceive steps. */
  lemma {:induction false} DrainAllIsARun(c: Config, s: State)
    requires s.b.phase.Draining? && |s.b.phase.batch| <= c.batchSize
    ensures exists steps :: OnlyDrainReceives(steps) && Legal(c, s, steps) && Exec(c, s, steps) == s.(b := DrainAll(c, s.b))
    decreases |s.b.ch|
  {
    if CanDrainReceive(c, s.b) {
      var t := Apply(c, s, DrainReceive);
      DrainAllIsARun(c, t);
      var rest :| OnlyDrainReceives(rest) && Legal(c, t, rest) && Exec(c, t, rest) == t.(b := DrainAll(c, t.b));
      var steps := [DrainReceive] + rest;
      assert steps[1..] == rest;
      assert OnlyDrainReceives(steps) && Legal(c, s, steps) && Exec(c, s, steps) == Exec(c, t, rest);
    } else {
      assert OnlyDrainReceives([]) && Legal(c, s, []) && Exec(c, s, []) == s;
    }
  }

  // ----- retries -----

  /** What the table holds after the first `k` attempts at a batch of `n` events. */
  function Written(t: Table, scripts: seq<DriverScript>, k: nat, n: nat): Table
    requires k <= |scripts|
  {
    if k == 0 then t
    else
      var last := scripts[k - 1];
      Written(t, scripts, k - 1, n) + if Sends(last, n) then last.landed else multiset{}
  }

  /** Tries the batch until Flush succeeds or the attempts are used up, pausing after every
      failure, the last one included. `scripts[i]` is how attempt `i` fares. */
  method FlushWithRetry(repo: Repository, flushRetries: int, batch: array<Event>, scripts: seq<DriverScript>)
    returns (err: Option<FlushError>, tries: nat, slept: nat)
    requires |scripts| == if flushRetries < 1 then 1 else flushRetries
    requires forall i :: 0 <= i < |scripts| ==> Honest(scripts[i], batch[..])
    modifies repo
    ensures 1 <= tries <= |scripts|
    ensures forall i :: 0 <= i < tries - 1 ==> !FlushSucceeds(scripts[i], batch.Length)
    ensures err.None? <==> FlushSucceeds(scripts[tries - 1], batch.Length)
    ensures err.Some? ==> tries == |scripts|
    ensures slept == PauseTotal(if err.None? then tries - 1 else tries)
    ensures repo.table == Written(old(repo.table), scripts, tries, batch.Length)
    ensures err.None? ==> Persisted(repo.table, batch[..])
  {
    var backoff := FIRST_PAUSE;
    slept := 0;
    err := None;
    ghost var t0 := repo.table;
    var events := batch[..];
    for i := 0 to |scripts|
      invariant backoff == Pause(i) && slept == PauseTotal(i)
      invariant i > 0 ==> err.Some?
      invariant batch[..] == events
      invariant forall j :: 0 <= j < i ==> !FlushSucceeds(scripts[j], batch.Length)
      invariant repo.table == Written(t0, scripts, i, batch.Length)
    {
      err := repo.Flush(events, scripts[i]);
      if err.None? {
        return None, i + 1, slept;
      }
      slept := slept + backoff;
      backoff := NextPause(backoff);
    }
    tries := |scripts|;
  }

  ghost function FlushSteps(w: nat, scripts: seq<DriverScript>): (steps: seq<Step>)
    ensures |steps| == |scripts|
  {
    if scripts == [] then [] else [Flush(w, scripts[0])] + FlushSteps(w, scripts[1..])
  }

  lemma {:induction false} WrittenFront(t: Table, scripts: seq<DriverScript>, k: nat, n: nat)
    requires 0 < k <= |scripts|
    ensures Written(t, scripts, k, n)
      == Written(t + (if Sends(scripts[0], n) then scripts[0].landed else multiset{}), scripts[1..], k - 1, n)
  {
    if k == 1 {
    } else {
      WrittenFront(t, scripts, k - 1, n);
    }
  }

  /** The attempts left to a worker: the ones already made failed, and so do these but the last. */
  ghost predicate Attempts(c: Config, s: State, w: nat, scripts: seq<DriverScript>) {
    && w < |s.workers| && s.workers[w].Busy?
    && scripts != [] && s.workers[w].tries + |scripts| <= c.attempts
    && (forall i :: 0 <= i < |scripts| ==> Honest(scripts[i], s.workers[w].batch))
    && (forall i :: 0 <= i < |scripts| - 1 ==> !FlushSucceeds(scripts[i], |s.workers[w].batch|))
    && (FlushSucceeds(scripts[|scripts| - 1], |s.workers[w].batch|) || s.workers[w].tries + |scripts| == c.attempts)
  }

  /** An attempt on a closed repository is a late one. */
  ghost function Late(s: State): State {
    s.(lateFlush := s.lateFlush || s.stage.RepoClosed?)
  }

  /** The batch of worker `w` is resolved and the worker idle again. */
  ghost function Resolve(s: State, w: nat, table: Table, r: Resolution): State
    requires w < |s.workers|
  {
    Late(s).(workers := s.workers[w := Idle], table := table, resolved := s.resolved + [r])
  }

  lemma NextAttempt(c: Config, s: State, w: nat, scripts: seq<DriverScript>)
    requires Attempts(c, s, w, scripts)
    ensures Enabled(c, s, Flush(w, scripts[0])) && Apply(c, s, Flush(w, scripts[0])) == DoFlush(c, s, w, scripts[0])
    ensures FlushSteps(w, scripts)[0] == Flush(w, scripts[0]) && FlushSteps(w, scripts)[1..] == FlushSteps(w, scripts[1..])
    ensures |scripts| > 1 ==> Attempts(c, DoFlush(c, s, w, scripts[0]), w, scripts[1..])
  {
    assert scripts[1..] != [] ==> scripts[1..][|scripts[1..]| - 1] == scripts[|scripts| - 1];
  }

  ghost function AfterAttempts(c: Config, s: State, w: nat, scripts: seq<DriverScript>): State
    requires Attempts(c, s, w, scripts)
    decreases |scripts|
  {
    NextAttempt(c, s, w, scripts);
    var t := DoFlush(c, s, w, scripts[0]);
    if |scripts| == 1 then t else AfterAttempts(c, t, w, scripts[1..])
  }

  lemma {:induction false} AttemptsAreARun(c: Config, s: State, w: nat, scripts: seq<DriverScript>)
    requires Attempts(c, s, w, scripts)
    ensures Legal(c, s, FlushSteps(w, scripts)) && Exec(c, s, FlushSteps(w, scripts)) == AfterAttempts(c, s, w, scripts)
    decreases |scripts|
  {
    NextAttempt(c, s, w, scripts);
    if |scripts| == 1 {
      assert FlushSteps(w, scripts[1..]) == [];
    } else {
      AttemptsAreARun(c, DoFlush(c, s, w, scripts[0]), w, scripts[1..]);
    }
  }

  /** One attempt: the batch is resolved by it, or one try older. */
  lemma OneAttempt(c: Config, s: State, w: nat, script: DriverScript)
    requires w < |s.workers| && s.workers[w].Busy?
    ensures var batch, tries := s.workers[w].batch, s.workers[w].tries + 1;
      var written := s.table + if Sends(script, |batch|) then script.landed else multiset{};
      var ok := FlushSucceeds(script, |batch|);
      DoFlush(c, s, w, script) == if ok || tries >= c.attempts then Resolve(s, w, written, Resolution(batch, tries, ok))
                                  else Late(s).(workers := s.workers[w := Busy(batch, tries)], table := written)
  {
  }

  /** The state the attempts lead to. */
  ghost function Resolved(s: State, w: nat, scripts: seq<DriverScript>): State
    requires w < |s.workers| && s.workers[w].Busy? && scripts != []
  {
    var batch := s.workers[w].batch;
    Resolve(s, w, Written(s.table, scripts, |scripts|, |batch|),
      Resolution(batch, s.workers[w].tries + |scripts|, FlushSucceeds(scripts[|scripts| - 1], |batch|)))
  }

  lemma LastAttempt(c: Config, s: State, w: nat, scripts: seq<DriverScript>)
    requires Attempts(c, s, w, scripts) && |scripts| == 1
    ensures DoFlush(c, s, w, scripts[0]) == Resolved(s, w, scripts)
  {
    OneAttempt(c, s, w, scripts[0]);
    WrittenFront(s.table, scripts, 1, |s.workers[w].batch|);
  }

  lemma OlderResolved(c: Config, s: State, w: nat, scripts: seq<DriverScript>)
    requires Attempts(c, s, w, scripts) && |scripts| > 1
    ensures var t := DoFlush(c, s, w, scripts[0]);
      |t.workers| == |s.workers| && t.workers[w].Busy? && Resolved(t, w, scripts[1..]) == Resolved(s, w, scripts)
  {
    var batch, tries := s.workers[w].batch, s.workers[w].tries;
    OneAttempt(c, s, w, scripts[0]);
    WrittenFront(s.table, scripts, |scripts|, |batch|);
    var ws := s.workers;
    assert ws[w := Busy(batch, tries + 1)][w := Idle] == ws[w := Idle];
    assert scripts[1..][|scripts| - 2] == scripts[|scripts| - 1];
  }

  lemma {:induction false} AttemptsResolve(c: Config, s: State, w: nat, scripts: seq<DriverScript>)
    requires Attempts(c, s, w, scripts)
    ensures AfterAttempts(c, s, w, scripts) == Resolved(s, w, scripts)
    decreases |scripts|
  {
    NextAttempt(c, s, w, scripts);
    if |scripts| == 1 {
      LastAttempt(c, s, w, scripts);
    } else {
      AttemptsResolve(c, DoFlush(c, s, w, scripts[0]), w, scripts[1..]);
      OlderResolved(c, s, w, scripts);
    }
  }

  /** One call of `flushWithRetry` is, in the state machine, the same attempts one by one: it
      leaves the worker idle, the batch resolved as the call reports, and the same table. */
  lemma RetriesAreFlushSteps(c: Config, s: State, w: nat, scripts: seq<DriverScript>)
    requires Attempts(c, s, w, scripts)
    ensures Legal(c, s, FlushSteps(w, scripts)) && Exec(c, s, FlushSteps(w, scripts)) == Resolved(s, w, scripts)
  {
    AttemptsAreARun(c, s, w, scripts);
    AttemptsResolve(c, s, w, scripts);
  }
}

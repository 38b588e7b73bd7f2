/** What a run of the ingestor keeps and what it loses: an accepted key is in the table exactly when
    some attempt landed a row of it, and after any moment only unresolved events can still land. */
module Losses {
  import opened Results
  import opened Events
  import opened Stores
  import opened Metrics
  import opened BufferProtocol
  import opened BufferRuns
  import opened Pipeline

  // ----- exactly what is kept -----

  /** The keys of the rows a step leaves in the database: only an attempt that reached Send
      leaves any, whether it was acknowledged or not. */
  ghost function Lands(c: Config, s: State, step: Step): set<Key>
    requires Enabled(c, s, step)
  {
    if step.Flush? && Sends(step.script, |s.workers[step.w].batch|) then Keys(Rows(step.script.landed)) else {}
  }

  ghost function LandedKeys(c: Config, s: State, steps: seq<Step>): set<Key>
    requires Legal(c, s, steps)
    decreases |steps|
  {
    if steps == [] then {} else Lands(c, s, steps[0]) + LandedKeys(c, Apply(c, s, steps[0]), steps[1..])
  }

  lemma FlushLands(c: Config, s: State, w: nat, script: DriverScript)
    requires w < |s.workers| && s.workers[w].Busy?
    ensures Keys(Rows(DoFlush(c, s, w, script).table))
      == Keys(Rows(s.table)) + if Sends(script, |s.workers[w].batch|) then Keys(Rows(script.landed)) else {}
  {
    if Sends(script, |s.workers[w].batch|) {
      RowsOfSum(s.table, script.landed);
      KeysOfSum(Rows(s.table), Rows(script.landed));
    } else {
      assert DoFlush(c, s, w, script).table == s.table;
    }
  }

  lemma TableKept(c: Config, s: State, step: Step)
    requires Enabled(c, s, step) && !step.Flush? && !step.Merge?
    ensures Apply(c, s, step).table == s.table
  {
  }

  lemma StepLands(c: Config, s: State, step: Step)
    requires Enabled(c, s, step)
    ensures Keys(Rows(Apply(c, s, step).table)) == Keys(Rows(s.table)) + Lands(c, s, step)
  {
    if step.Flush? {
      FlushLands(c, s, step.w, step.script);
    } else if step.Merge? {
      MergeKeepsKeys(c.calendar, s.table, step.merged);
    } else {
      TableKept(c, s, step);
    }
  }

  /** The keys of the table are those that were there and those that landed. */
  lemma {:induction false} TableIsLanded(c: Config, s: State, steps: seq<Step>)
    requires Legal(c, s, steps)
    ensures Keys(Rows(Exec(c, s, steps).table)) == Keys(Rows(s.table)) + LandedKeys(c, s, steps)
    decreases |steps|
  {
    if steps == [] {
    } else {
      StepLands(c, s, steps[0]);
      TableIsLanded(c, Apply(c, s, steps[0]), steps[1..]);
    }
  }

  /** In every run, at every moment: nothing accepted is missing from the table exactly when a
      row of every accepted key has landed. It takes no clean Close and no quiet server. */
  lemma NothingLostIff(c: Config, steps: seq<Step>)
    requires Legal(c, Init(), steps)
    ensures var s := Exec(c, Init(), steps);
      AllLanded(s) <==> KeysOf(s.accepted) <= LandedKeys(c, Init(), steps)
  {
    TableIsLanded(c, Init(), steps);
    assert Keys(Rows(Init().table)) == {};
  }

  // ----- what can still land -----

  /** With every goroutine gone nothing lands any more. */
  lemma {:induction false} FinishedLandsNothing(c: Config, s: State, steps: seq<Step>)
    requires Legal(c, s, steps) && Finished(s)
    ensures LandedKeys(c, s, steps) == {}
    decreases |steps|
  {
    if steps == [] {
    } else {
      FinishedLandsNothing(c, Apply(c, s, steps[0]), steps[1..]);
    }
  }

  /** A Close that returned nil settles it: at any later time nothing accepted is missing exactly
      when every accepted key had landed before. */
  lemma CleanCloseKeepsIff(c: Config, before: seq<Step>, after: seq<Step>)
    requires Usable(c) && Legal(c, Init(), before) && Exec(c, Init(), before).clean
    requires Legal(c, Exec(c, Init(), before), after)
    ensures var s := Exec(c, Exec(c, Init(), before), after);
      AllLanded(s) <==> KeysOf(s.accepted) <= LandedKeys(c, Init(), before)
  {
    var s := Exec(c, Init(), before);
    CleanClose(c, s);
    TableIsLanded(c, Init(), before);
    TableIsLanded(c, s, after);
    FinishedLandsNothing(c, s, after);
    assert Keys(Rows(Init().table)) == {};
  }

  function KeysIn(bag: multiset<Event>): set<Key> {
    set e <- bag :: KeyOf(e)
  }

  ghost function PublishedKeys(steps: seq<Step>): set<Key> {
    set i | 0 <= i < |steps| && steps[i].Publish? :: KeyOf(steps[i].e)
  }

  lemma ResolvedStep(c: Config, s: State, step: Step)
    requires Enabled(c, s, step)
    ensures var rs := Apply(c, s, step).resolved;
      rs == s.resolved || exists r :: rs == s.resolved + [r]
  {
    if step.Flush? {
      var batch, tries := s.workers[step.w].batch, s.workers[step.w].tries + 1;
      var r := Resolution(batch, tries, FlushSucceeds(step.script, |batch|));
      assert DoFlush(c, s, step.w, step.script).resolved == s.resolved
          || DoFlush(c, s, step.w, step.script).resolved == s.resolved + [r];
    }
  }

  lemma ResolvedGrows(c: Config, s: State, step: Step)
    requires Enabled(c, s, step)
    ensures ResolvedEvents(s) <= ResolvedEvents(Apply(c, s, step))
  {
    var rs := Apply(c, s, step).resolved;
    ResolvedStep(c, s, step);
    if rs != s.resolved {
      var r :| rs == s.resolved + [r];
      ResolvedAppend(s.resolved, r, true);
      ResolvedAppend(s.resolved, r, false);
    }
  }

  lemma AcceptedGrows(c: Config, s: State, step: Step)
    requires Enabled(c, s, step)
    ensures Apply(c, s, step).accepted == s.accepted + if step.Publish? then [step.e] else []
  {
  }

  /** What is left after taking no less away from no more. */
  lemma Remainder(a: multiset<Event>, r: multiset<Event>, p: multiset<Event>,
                  r': multiset<Event>, p': multiset<Event>, more: multiset<Event>)
    requires a == r + p && a + more == r' + p' && r <= r'
    ensures p' <= p + more
  {
    forall e ensures p'[e] <= (p + more)[e] {
      assert (a + more)[e] == a[e] + more[e] && (r' + p')[e] == r'[e] + p'[e] && (r + p)[e] == r[e] + p[e];
    }
  }

  lemma PendingStep(c: Config, s: State, step: Step)
    requires Usable(c) && Inv(c, s) && Enabled(c, s, step)
    ensures Inv(c, Apply(c, s, step))
    ensures Pending(Apply(c, s, step)) <= Pending(s) + if step.Publish? then multiset{step.e} else multiset{}
  {
    var t := Apply(c, s, step);
    InvStep(c, s, step);
    ConservationOf(s);
    ConservationOf(t);
    ResolvedGrows(c, s, step);
    AcceptedGrows(c, s, step);
    var more := if step.Publish? then multiset{step.e} else multiset{};
    assert multiset(t.accepted) == multiset(s.accepted) + more;
    Remainder(multiset(s.accepted), ResolvedEvents(s), Pending(s), ResolvedEvents(t), Pending(t), more);
  }

  lemma HeldIsPending(s: State, w: nat, e: Event)
    requires |s.workers| == WORKERS && w < WORKERS && e in Held(s.workers[w])
    ensures e in Pending(s)
  {
    assert w == 0 || w == 1 || w == 2 || w == 3;
    assert e in HeldBag(s.workers);
  }

  lemma LandedOfBatch(parts: Table, batch: Batch, k: Key)
    requires Landed(parts, batch) && k in Keys(Rows(parts))
    ensures exists e :: e in batch && KeyOf(e) == k
  {
    var r :| r in Rows(parts) && RowKey(r) == k;
    assert r.event in batch;
  }

  /** A step lands rows of a batch in flight only. */
  lemma LandsOfPending(c: Config, s: State, step: Step)
    requires Enabled(c, s, step) && |s.workers| == WORKERS
    ensures Lands(c, s, step) <= KeysIn(Pending(s))
  {
    forall k <- Lands(c, s, step) ensures k in KeysIn(Pending(s)) {
      var batch := s.workers[step.w].batch;
      LandedOfBatch(step.script.landed, batch, k);
      var e :| e in batch && KeyOf(e) == k;
      HeldIsPending(s, step.w, e);
    }
  }

  lemma KeysInGrow(p: multiset<Event>, q: multiset<Event>, step: Step)
    requires p <= q + if step.Publish? then multiset{step.e} else multiset{}
    ensures KeysIn(p) <= KeysIn(q) + PublishedKeys([step])
  {
    assert step.Publish? ==> [step][0].Publish?;
    forall k <- KeysIn(p) ensures k in KeysIn(q) + PublishedKeys([step]) {
      var e :| e in p && KeyOf(e) == k;
      assert e in q || (step.Publish? && e == step.e);
    }
  }

  lemma PublishedCons(steps: seq<Step>)
    requires steps != []
    ensures PublishedKeys(steps) == PublishedKeys([steps[0]]) + PublishedKeys(steps[1..])
  {
    forall k <- PublishedKeys(steps) ensures k in PublishedKeys([steps[0]]) + PublishedKeys(steps[1..]) {
      var i :| 0 <= i < |steps| && steps[i].Publish? && KeyOf(steps[i].e) == k;
      assert if i == 0 then [steps[0]][0] == steps[i] else steps[1..][i - 1] == steps[i];
    }
  }

  lemma {:induction false} PendingLandsFrom(c: Config, s: State, steps: seq<Step>)
    requires Usable(c) && Inv(c, s) && Legal(c, s, steps)
    ensures LandedKeys(c, s, steps) <= KeysIn(Pending(s)) + PublishedKeys(steps)
    decreases |steps|
  {
    if steps == [] {
    } else {
      var t := Apply(c, s, steps[0]);
      LandsOfPending(c, s, steps[0]);
      PendingStep(c, s, steps[0]);
      KeysInGrow(Pending(t), Pending(s), steps[0]);
      PendingLandsFrom(c, t, steps[1..]);
      PublishedCons(steps);
    }
  }

  /** From any moment on, a timed-out Close and a closed repository included, nothing lands but
      what was then unresolved and what is published later. */
  lemma OnlyPendingLands(c: Config, s: State, steps: seq<Step>)
    requires Usable(c) && Reachable(c, s) && Legal(c, s, steps)
    ensures |s.workers| == WORKERS
    ensures LandedKeys(c, s, steps) <= KeysIn(Pending(s)) + PublishedKeys(steps)
  {
    ReachableInv(c, s);
    PendingLandsFrom(c, s, steps);
  }

  /** So an accepted key that has not landed and belongs to no unresolved event is lost for good,
      unless a client sends it again. */
  lemma LostForGood(c: Config, s: State, steps: seq<Step>, k: Key)
    requires Usable(c) && Reachable(c, s) && Legal(c, s, steps)
    requires k in KeysOf(s.accepted) && k !in Keys(Rows(s.table)) && k !in PublishedKeys(steps)
    ensures |s.workers| == WORKERS
    ensures k !in KeysIn(Pending(s)) ==> k !in Keys(Rows(Exec(c, s, steps).table))
  {
    TableIsLanded(c, s, steps);
    OnlyPendingLands(c, s, steps);
  }

  /** One way only: a clean shutdown of a quiet server in which no batch used up its attempts has
      every accepted key in the table. */
  lemma NoneAbandonedNoneLost(c: Config, s: State)
    requires Usable(c) && Reachable(c, s) && s.clean && s.quiet && forall r <- s.resolved :: r.ok
    ensures AllLanded(s)
  {
    CleanClose(c, s);
    QuietServerStrandsNothing(c, s);
    ReachableInv(c, s);
    FinishedIsEmpty(c, s);
    assert AllWritten(s);
    WrittenIsLanded(c, s);
  }

  // ----- runs that end with a clean Close -----

  lemma WorkerLeaves(c: Config, s: State, w: nat)
    requires Reachable(c, s) && s.b.phase.Exited? && s.b.queue == [] && w < |s.workers| && s.workers[w].Idle?
    ensures Reachable(c, s.(workers := s.workers[w := Gone]))
  {
    ReachableStep(c, s, WorkerExit(w));
  }

  lemma WorkersLeave(c: Config, s: State)
    requires Reachable(c, s) && s.b.phase.Exited? && s.b.queue == [] && s.workers == [Idle, Idle, Idle, Idle] && s.stage.Closing?
    ensures Reachable(c, s.(workers := [Gone, Gone, Gone, Gone], stage := Closed, clean := true))
  {
    var ws := s.workers;
    WorkerLeaves(c, s, 0);
    WorkerLeaves(c, s.(workers := ws[0 := Gone]), 1);
    WorkerLeaves(c, s.(workers := ws[0 := Gone][1 := Gone]), 2);
    WorkerLeaves(c, s.(workers := ws[0 := Gone][1 := Gone][2 := Gone]), 3);
    assert ws[0 := Gone][1 := Gone][2 := Gone][3 := Gone] == [Gone, Gone, Gone, Gone];
    ReachableStep(c, s.(workers := [Gone, Gone, Gone, Gone]), CloseFinished);
  }

  /** `s` after its goroutines have left with nothing to do and Close returned nil. */
  ghost function Left(s: State): State {
    s.(b := Channels([], Exited, []), workers := [Gone, Gone, Gone, Gone], stage := Closed, clean := true,
       exitMark := |s.accepted|)
  }

  lemma LeaveAll(c: Config, s: State)
    requires Reachable(c, s) && s.b == Channels([], Select([]), []) && s.workers == [Idle, Idle, Idle, Idle] && s.stage.Closing?
    ensures Reachable(c, Left(s))
  {
    var s1 := Apply(c, s, DoneArm); ReachableStep(c, s, DoneArm);
    var s2 := Apply(c, s1, DrainStop); ReachableStep(c, s1, DrainStop);
    WorkersLeave(c, s2);
  }

  // ----- how events are lost -----

  /** A worker holds the only event there is. */
  ghost function OneInFlight(e: Event): State {
    Init().(workers := [Busy([e], 0), Idle, Idle, Idle], accepted := [e], dispatched := [[e]], taken := [[e]])
  }

  lemma OneQueuedReachable(c: Config, e: Event)
    requires c.capacity == 1 && c.batchSize == 1
    ensures Reachable(c, Init().(b := Channels([], Select([]), [[e]]), accepted := [e], dispatched := [[e]]))
  {
    assert Legal(c, Init(), []) && Exec(c, Init(), []) == Init();
    ReachableStep(c, Init(), Publish(e));
    var s1 := Init().(b := Channels([e], Select([]), []), accepted := [e]);
    assert Apply(c, Init(), Publish(e)) == s1;
    ReachableStep(c, s1, Receive);
    var s2 := s1.(b := Channels([], Sending([e], ToSelect), []));
    assert Apply(c, s1, Receive) == s2;
    ReachableStep(c, s2, Send);
    assert Apply(c, s2, Send) == s2.(b := Channels([], Select([]), [[e]]), dispatched := [[e]]);
  }

  lemma OneInFlightReachable(c: Config, e: Event)
    requires c.capacity == 1 && c.batchSize == 1
    ensures Reachable(c, OneInFlight(e))
  {
    OneQueuedReachable(c, e);
    var s := Init().(b := Channels([], Select([]), [[e]]), accepted := [e], dispatched := [[e]]);
    ReachableStep(c, s, Take(0));
    var t := Apply(c, s, Take(0));
    assert t.b == Init().b;
    assert t.workers == [Busy([e], 0), Idle, Idle, Idle];
    assert t == OneInFlight(e);
  }

  /** A quiet server shut down cleanly after the single attempt at its only event. */
  ghost function AfterOneAttempt(e: Event, script: DriverScript): State {
    Left(Init().(stage := Closing, quiet := true, accepted := [e], dispatched := [[e]], taken := [[e]],
                 table := if Sends(script, 1) then script.landed else multiset{},
                 resolved := [Resolution([e], 1, FlushSucceeds(script, 1))]))
  }

  lemma ClosingReachable(c: Config, s: State)
    requires Reachable(c, s) && s.stage.Running?
    ensures Reachable(c, s.(stage := Closing, quiet := true))
  {
    ReachableStep(c, s, StopServer(true));
    ReachableStep(c, s.(stage := ServerStopped, quiet := true), CloseBegin);
  }

  lemma OneAttemptReachable(c: Config, e: Event, script: DriverScript)
    requires c.capacity == 1 && c.batchSize == 1 && c.attempts == 1 && Honest(script, [e])
    ensures Reachable(c, AfterOneAttempt(e, script))
  {
    OneInFlightReachable(c, e);
    ClosingReachable(c, OneInFlight(e));
    var s := OneInFlight(e).(stage := Closing, quiet := true);
    ReachableStep(c, s, Flush(0, script));
    var t := DoFlush(c, s, 0, script);
    assert t.workers == [Idle, Idle, Idle, Idle];
    LeaveAll(c, t);
    assert Left(t) == AfterOneAttempt(e, script);
  }

  /** One event, one attempt per batch, a database that refuses it: Close returns cleanly, the
      server is quiet, and the event is in no table. */
  lemma CleanShutdownCanLose(cal: Calendar, e: Event)
    ensures var c := Configure(1, 1, 1, cal);
      exists s :: Reachable(c, s) && s.clean && s.quiet && s.accepted == [e] && s.table == multiset{}
  {
    assert Rows(Refusal.landed) == {};
    OneAttemptReachable(Configure(1, 1, 1, cal), e, Refusal);
  }

  lemma OneRow(r: Row)
    ensures Rows(multiset{[r]}) == {r}
  {
    assert [r] in multiset{[r]} && r in [r];
    forall x <- Rows(multiset{[r]}) ensures x == r {
      var p :| p in multiset{[r]} && x in p;
      assert p == [r];
    }
  }

  /** The same with a Send that failed after its row had landed: the batch used up its attempts,
      and yet nothing is lost. An abandoned batch need not be a lost one. */
  lemma AbandonedCanLand(cal: Calendar, e: Event)
    ensures var c := Configure(1, 1, 1, cal);
      exists s :: Reachable(c, s) && s.clean && s.quiet && s.accepted == [e]
        && s.resolved == [Resolution([e], 1, false)] && AllLanded(s)
  {
    var row := Row(e, 0);
    var script := DriverScript(false, None, multiset{[row]}, true);
    OneRow(row);
    OneAttemptReachable(Configure(1, 1, 1, cal), e, script);
    assert RowKey(row) in Keys(Rows(AfterOneAttempt(e, script).table));
  }

  /** Publish does not look at `done`: a handler that outlived the server admits an event after
      everything has returned, and there it stays. */
  lemma LateEventIsStranded(cal: Calendar, e: Event)
    ensures var c := Configure(1, 1, 1, cal);
      exists s :: Reachable(c, s) && Finished(s) && s.clean && s.accepted == [e] && s.b.ch == [e]
        && s.resolved == [] && s.table == multiset{}
  {
    var c, s := Configure(1, 1, 1, cal), Init();
    assert Legal(c, s, []) && Exec(c, s, []) == s;
    var s1 := Apply(c, s, StopServer(false)); ReachableStep(c, s, StopServer(false));
    var s2 := Apply(c, s1, CloseBegin); ReachableStep(c, s1, CloseBegin);
    LeaveAll(c, s2);
    var t := Left(s2);
    ReachableStep(c, t, Publish(e));
    assert Apply(c, t, Publish(e)).b.ch == [e];
  }

  /** Close timed out and the repository is closed, which waits for no attempt: the rows of the
      batch in flight land all the same, and only then is nothing missing. */
  lemma LandsAfterRepositoryClosed(cal: Calendar, e: Event)
    ensures var c := Configure(1, 1, 1, cal);
      exists s, step :: Reachable(c, s) && s.stage.RepoClosed? && !AllLanded(s) && Enabled(c, s, step) && AllLanded(Apply(c, s, step))
  {
    var c, s := Configure(1, 1, 1, cal), OneInFlight(e);
    var row := Row(e, 0);
    var step := Flush(0, DriverScript(false, None, multiset{[row]}, false));
    OneInFlightReachable(c, e);
    ClosingReachable(c, s);
    var s1 := s.(stage := Closing, quiet := true);
    ReachableStep(c, s1, CloseTimedOut);
    var s2 := s1.(stage := Closed);
    ReachableStep(c, s2, CloseRepo);
    var s3 := s2.(stage := RepoClosed);
    OneRow(row);
    assert KeyOf(e) in KeysOf(s3.accepted) && Keys(Rows(s3.table)) == {};
    assert Enabled(c, s3, step);
    var t := DoFlush(c, s3, 0, step.script);
    assert t.table == multiset{[row]} && RowKey(row) in Keys(Rows(t.table));
    assert AllLanded(t);
  }

  // ----- two statements, two moments -----

  lemma TotalIsInRange(view: set<Row>, rows: set<Row>, q: Params)
    requires IsFinal(view, rows)
    ensures Count(view, Matching(q)) == |InRange(q, Keys(rows))|
  {
    FinalKeys(view, rows);
    PickedAreInRange(view, q);
    RowsAreKeys(Picked(view, Matching(q)));
  }

  lemma InRangeLater(q: Params, before: set<Key>, landed: set<Key>)
    ensures |InRange(q, before + landed)| == |InRange(q, before)| + |InRange(q, landed) - before|
  {
    assert InRange(q, before + landed) == InRange(q, before) + (InRange(q, landed) - before);
  }

  /** The totals are read at one moment of a run, the groups at a later one: the groups add up to
      the total and to the keys in range that landed in between. */
  lemma GroupsOfLaterMoment(c: Config, s: State, steps: seq<Step>, v: set<Row>, w: set<Row>, q: Params, dim: GroupBy,
                            table: seq<GroupResult>)
    requires Legal(c, s, steps) && IsFinal(v, Rows(s.table)) && IsFinal(w, Rows(Exec(c, s, steps).table))
    requires IsGroupTable(table, w, q, dim)
    ensures SumTotals(table)
      == Count(v, Matching(q)) + |InRange(q, LandedKeys(c, s, steps)) - Keys(Rows(s.table))|
  {
    var before, landed := Keys(Rows(s.table)), LandedKeys(c, s, steps);
    TotalIsInRange(v, Rows(s.table), q);
    TotalIsInRange(w, Rows(Exec(c, s, steps).table), q);
    TableIsLanded(c, s, steps);
    GroupTotalsAddUp(table, w, q, dim);
    InRangeLater(q, before, landed);
  }
}

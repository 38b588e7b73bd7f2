/** What the retries are worth: an abandoned batch costs as many faulty attempts as a batch has,
    so a run with fewer faults than that loses nothing. */
module Faults {
  import opened Arithmetic
  import opened Stores
  import opened Metrics
  import opened BufferProtocol
  import opened BufferRuns
  import opened Pipeline

  /** Something goes wrong in this attempt at a batch of `n` events. */
  predicate Faulty(script: DriverScript, n: nat) {
    script.prepareFails || (script.appendFailsAt.Some? && script.appendFailsAt.value < n) || script.sendFails
  }

  function FaultsOf(s: State, step: Step): nat {
    if step.Flush? && step.w < |s.workers| && s.workers[step.w].Busy? && Faulty(step.script, |s.workers[step.w].batch|)
    then 1 else 0
  }

  /** The faulty attempts of a run. */
  ghost function FaultsIn(c: Config, s: State, steps: seq<Step>): nat
    requires Legal(c, s, steps)
    decreases |steps|
  {
    if steps == [] then 0 else FaultsOf(s, steps[0]) + FaultsIn(c, Apply(c, s, steps[0]), steps[1..])
  }

  function Abandoned(rs: seq<Resolution>): nat {
    if rs == [] then 0 else Abandoned(rs[..|rs| - 1]) + if rs[|rs| - 1].ok then 0 else 1
  }

  lemma AbandonedAppend(rs: seq<Resolution>, r: Resolution)
    ensures Abandoned(rs + [r]) == Abandoned(rs) + if r.ok then 0 else 1
  {
    assert (rs + [r])[..|rs|] == rs;
  }

  function TriesOf(w: Worker): nat {
    if w.Busy? then w.tries else 0
  }

  /** Attempts already spent on the batches in flight. */
  function TriesIn(ws: seq<Worker>): nat
    requires |ws| == WORKERS
  {
    TriesOf(ws[0]) + TriesOf(ws[1]) + TriesOf(ws[2]) + TriesOf(ws[3])
  }

  lemma TriesUpdate(ws: seq<Worker>, w: nat, x: Worker)
    requires |ws| == WORKERS && w < |ws|
    ensures TriesIn(ws[w := x]) + TriesOf(ws[w]) == TriesIn(ws) + TriesOf(x)
  {
  }

  /** Attempts that abandoned batches and batches in flight have cost. */
  function Spent(c: Config, rs: seq<Resolution>, ws: seq<Worker>): nat
    requires |ws| == WORKERS
  {
    Times(Abandoned(rs), c.attempts) + TriesIn(ws)
  }

  /** An attempt succeeds exactly when nothing goes wrong in it. */
  lemma SucceedsIff(script: DriverScript, n: nat)
    requires n > 0
    ensures FlushSucceeds(script, n) <==> !Faulty(script, n)
  {
  }

  lemma FlushSpends(c: Config, s: State, w: nat, script: DriverScript)
    requires BusyShape(c, s.workers) && w < |s.workers| && s.workers[w].Busy?
    ensures var t := DoFlush(c, s, w, script);
      |t.workers| == WORKERS
      && Spent(c, t.resolved, t.workers)
         <= Spent(c, s.resolved, s.workers) + if Faulty(script, |s.workers[w].batch|) then 1 else 0
  {
    var t := DoFlush(c, s, w, script);
    var batch, tries := s.workers[w].batch, s.workers[w].tries + 1;
    var ok := FlushSucceeds(script, |batch|);
    SucceedsIff(script, |batch|);
    if ok || tries >= c.attempts {
      AbandonedAppend(s.resolved, Resolution(batch, tries, ok));
      TriesUpdate(s.workers, w, Idle);
    } else {
      TriesUpdate(s.workers, w, Busy(batch, tries));
    }
  }

  lemma OtherStepSpends(c: Config, s: State, step: Step)
    requires |s.workers| == WORKERS && Enabled(c, s, step) && !step.Flush?
    ensures var t := Apply(c, s, step);
      |t.workers| == WORKERS && Spent(c, t.resolved, t.workers) == Spent(c, s.resolved, s.workers)
  {
    if step.Take? {
      TriesUpdate(s.workers, step.w, Busy(s.b.queue[0], 0));
    } else if step.WorkerExit? {
      TriesUpdate(s.workers, step.w, Gone);
    }
  }

  lemma {:induction false} RunSpends(c: Config, s: State, steps: seq<Step>)
    requires Usable(c) && Shape(c, s) && Legal(c, s, steps)
    ensures var t := Exec(c, s, steps);
      |t.workers| == WORKERS
      && Spent(c, t.resolved, t.workers) <= Spent(c, s.resolved, s.workers) + FaultsIn(c, s, steps)
    decreases |steps|
  {
    if steps == [] {
    } else {
      if steps[0].Flush? {
        FlushSpends(c, s, steps[0].w, steps[0].script);
      } else {
        OtherStepSpends(c, s, steps[0]);
      }
      ShapeStep(c, s, steps[0]);
      RunSpends(c, Apply(c, s, steps[0]), steps[1..]);
    }
  }

  /** In every run each abandoned batch has cost all its attempts in faults of its own. */
  lemma AbandonedCostsFaults(c: Config, steps: seq<Step>)
    requires Usable(c) && Legal(c, Init(), steps)
    ensures Abandoned(Exec(c, Init(), steps).resolved) * c.attempts <= FaultsIn(c, Init(), steps)
  {
    RunSpends(c, Init(), steps);
    TimesIsProduct(Abandoned(Exec(c, Init(), steps).resolved), c.attempts);
  }

  lemma {:induction false} NoneAbandoned(rs: seq<Resolution>)
    ensures Abandoned(rs) == 0 <==> forall r <- rs :: r.ok
  {
    if rs == [] {
    } else {
      var n := |rs| - 1;
      NoneAbandoned(rs[..n]);
      assert rs == rs[..n] + [rs[n]];
    }
  }

  lemma LessThanOnce(n: nat, k: nat)
    requires Times(n, k) < k
    ensures n == 0
  {
  }

  /** Fewer faults than one batch has attempts: every batch is written. */
  lemma FewFaultsAbandonNothing(c: Config, steps: seq<Step>)
    requires Usable(c) && Legal(c, Init(), steps) && FaultsIn(c, Init(), steps) < c.attempts
    ensures forall r <- Exec(c, Init(), steps).resolved :: r.ok
  {
    RunSpends(c, Init(), steps);
    var rs := Exec(c, Init(), steps).resolved;
    LessThanOnce(Abandoned(rs), c.attempts);
    NoneAbandoned(rs);
  }

  /** And when everything has returned with nothing left in the channel, nothing is lost. */
  lemma FewFaultsLoseNothing(c: Config, steps: seq<Step>)
    requires Usable(c) && Legal(c, Init(), steps) && FaultsIn(c, Init(), steps) < c.attempts
    requires Finished(Exec(c, Init(), steps)) && Exec(c, Init(), steps).b.ch == []
    ensures AllLanded(Exec(c, Init(), steps))
  {
    var s := Exec(c, Init(), steps);
    assert Reachable(c, s);
    FewFaultsAbandonNothing(c, steps);
    ReachableInv(c, s);
    FinishedIsEmpty(c, s);
    assert AllWritten(s);
    WrittenIsLanded(c, s);
  }

  /** From the clients to the report: with fewer faults than attempts, a pipeline that has drained
      answers every query as a naive reader of the accepted log would. */
  lemma FewFaultsReportTheLog(c: Config, v: Service, steps: seq<Step>, view: set<Row>, q: Params, res: MetricResult)
    requires Usable(c) && Legal(c, Init(), steps) && Ingesting(v, steps) && FaultsIn(c, Init(), steps) < c.attempts
    requires var s := Exec(c, Init(), steps);
      && Finished(s) && s.b.ch == [] && IsFinal(view, Rows(s.table))
      && (q.groupBy.ByChannel? || q.groupBy.ByCampaign? ==> Separable(v, s.accepted))
    ensures Truthful(res, q, view) <==> ReportsLog(res, q, Exec(c, Init(), steps).accepted)
  {
    var s := Exec(c, Init(), steps);
    assert Serves(c, v, s);
    FewFaultsLoseNothing(c, steps);
    PipelineReportsTheLog(c, v, s, view, q, res);
  }
}

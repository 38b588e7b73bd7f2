/** The per-route request limiter: the admission check of internal/handler/middleware.go and the
    registry with its one-second reset of internal/handler/handler.go. */
module Limiter {
  import opened Arithmetic

  datatype Op = Request | Tick

  /** The counter after a run of requests and resets. */
  function Count(limit: int, count: int, ops: seq<Op>): int {
    if ops == [] then count
    else
      var before := Count(limit, count, ops[..|ops| - 1]);
      match ops[|ops| - 1]
      case Tick => 0
      case Request => if before >= limit then before else before + 1
  }

  /** One limiter; its mutex makes each operation atomic. */
  class RateLimiter {
    var count: int
    const limit: int

    constructor (limit: int)
      ensures this.limit == limit && count == 0
    {
      this.limit := limit;
      count := 0;
    }

    method Admit() returns (ok: bool)
      modifies this
      ensures ok == (old(count) < limit)
      ensures count == Count(limit, old(count), [Request]) == old(count) + if ok then 1 else 0
    {
      if count >= limit {
        return false;
      }
      count := count + 1;
      return true;
    }

    method Reset()
      modifies this
      ensures count == Count(limit, old(count), [Tick]) == 0
    {
      count := 0;
    }
  }

  class Registry {
    const limiters: map<string, RateLimiter>

    constructor (ingest: int, bulk: int, metrics: int, health: int)
      ensures limiters.Keys == {"ingest", "bulk", "metrics", "health"}
      ensures forall name <- limiters :: fresh(limiters[name]) && limiters[name].count == 0
      ensures limiters["ingest"].limit == ingest && limiters["bulk"].limit == bulk
      ensures limiters["metrics"].limit == metrics && limiters["health"].limit == health
      ensures forall a, b :: a in limiters && b in limiters && a != b ==> limiters[a] != limiters[b]
    {
      var i := new RateLimiter(ingest);
      var b := new RateLimiter(bulk);
      var m := new RateLimiter(metrics);
      var h := new RateLimiter(health);
      limiters := map["ingest" := i, "bulk" := b, "metrics" := m, "health" := h];
    }

    /** `withLimiter`: a route without a limiter always passes. */
    method Pass(name: string) returns (ok: bool)
      modifies limiters.Values
      ensures ok == (name !in limiters || old(limiters[name].count) < limiters[name].limit)
      ensures name in limiters ==> limiters[name].count == Count(limiters[name].limit, old(limiters[name].count), [Request])
      ensures name in limiters ==> limiters[name].count == old(limiters[name].count) + if ok then 1 else 0
      ensures forall other <- limiters :: (name in limiters ==> limiters[other] != limiters[name]) ==>
        limiters[other].count == old(limiters[other].count)
    {
      if name !in limiters {
        return true;
      }
      ok := limiters[name].Admit();
    }

    /** One tick of the reset goroutine, visiting the routes in whatever order the map gives. */
    method ResetAll()
      modifies limiters.Values
      ensures forall name <- limiters :: limiters[name].count == 0
    {
      var rest := limiters.Keys;
      while rest != {}
        invariant rest <= limiters.Keys
        invariant forall name <- limiters :: name !in rest ==> limiters[name].count == 0
        decreases |rest|
      {
        var name :| name in rest;
        limiters[name].Reset();
        rest := rest - {name};
      }
    }
  }

  // ----- what one limiter does over a run -----

  function Admitted(limit: int, count: int, ops: seq<Op>): nat {
    if ops == [] then 0
    else
      var front := ops[..|ops| - 1];
      Admitted(limit, count, front)
      + if ops[|ops| - 1].Request? && Count(limit, count, front) < limit then 1 else 0
  }

  function Resets(ops: seq<Op>): nat {
    if ops == [] then 0 else Resets(ops[..|ops| - 1]) + if ops[|ops| - 1].Tick? then 1 else 0
  }

  /** The operations after the last reset. */
  function SinceReset(ops: seq<Op>): seq<Op> {
    if ops == [] || ops[|ops| - 1].Tick? then [] else SinceReset(ops[..|ops| - 1]) + [ops[|ops| - 1]]
  }

  lemma {:induction false} CountInRange(limit: int, count: int, ops: seq<Op>)
    requires 0 <= count <= limit
    ensures 0 <= Count(limit, count, ops) <= limit
  {
    if ops == [] {
    } else {
      CountInRange(limit, count, ops[..|ops| - 1]);
    }
  }

  lemma {:induction false} AdmittedInWindows(limit: int, count: int, ops: seq<Op>)
    requires 0 <= count <= limit
    ensures Admitted(limit, count, ops) + count <= Times(Resets(ops), limit) + Count(limit, count, ops)
  {
    if ops == [] {
    } else {
      AdmittedInWindows(limit, count, ops[..|ops| - 1]);
      CountInRange(limit, count, ops[..|ops| - 1]);
    }
  }

  lemma OneWindowMore(k: nat, n: nat)
    ensures (k + 1) * n == Times(k, n) + n
  {
    TimesIsProduct(k, n);
  }

  /** Any stretch of a run with `k` resets in it admits at most (k + 1) * limit requests. */
  lemma WindowBound(limit: int, count: int, ops: seq<Op>)
    requires 0 <= count <= limit
    ensures Admitted(limit, count, ops) <= (Resets(ops) + 1) * limit
  {
    AdmittedInWindows(limit, count, ops);
    CountInRange(limit, count, ops);
    OneWindowMore(Resets(ops), limit);
  }

  /** The counter is the number of requests admitted since the last reset. */
  lemma {:induction false} CountIsAdmitted(limit: int, ops: seq<Op>)
    requires 0 <= limit
    ensures Count(limit, 0, ops) == Admitted(limit, 0, SinceReset(ops)) == Count(limit, 0, SinceReset(ops))
  {
    if ops != [] && ops[|ops| - 1].Request? {
      var front := ops[..|ops| - 1];
      CountIsAdmitted(limit, front);
      assert SinceReset(ops)[..|SinceReset(ops)| - 1] == SinceReset(front);
    }
  }

  /** A request is refused exactly when the limit was already used up since the last reset. */
  lemma RefusedIff(limit: int, ops: seq<Op>)
    requires 0 <= limit
    ensures Count(limit, 0, ops) >= limit <==> Admitted(limit, 0, SinceReset(ops)) == limit
  {
    CountIsAdmitted(limit, ops);
    CountInRange(limit, 0, ops);
  }
}

/** How often a whole run may fetch: the cooldown, its per-kid exemption, and what both cost in total. */
module JwksBudget {
  import opened Common
  import opened Jwks
  import opened JwksProtocol

  function Quiet(cfg: Config): nat {
    Min(cfg.ttl, cfg.backoff)
  }

  /** Enough time has passed since every completed refresh. */
  ghost predicate Rested(cfg: Config, log: seq<Event>, now: Instant) {
    forall j :: 0 <= j < |log| && log[j].RefreshCompleted? ==> now >= log[j].at + Quiet(cfg)
  }

  /** Every fetch not made for an owed kid began at least the quiet period after every earlier refresh. */
  ghost predicate FetchesSpaced(cfg: Config, log: seq<Event>) {
    forall i, j :: 0 <= j < i < |log| && log[i].FetchStarted? && !log[i].owed && log[j].RefreshCompleted?
      ==> log[i].at >= log[j].at + Quiet(cfg)
  }

  ghost predicate GatesHonoured(cfg: Config, s: System) {
    forall t :: t in s.tasks && s.tasks[t].PastGate() ==>
      if s.tasks[t].owed then EvictedSince(s.log) != {} else Rested(cfg, s.log, s.clock)
  }

  /** Exempt refreshes spend evictions: at most one each, and none is spent twice. */
  ghost predicate ExemptionsPaid(log: seq<Event>) {
    Tally(log, OwedRefresh) + (if EvictedSince(log) != {} then 1 else 0) <= Tally(log, Eviction)
  }

  ghost predicate RateKept(cfg: Config, log: seq<Event>) {
    match LastRefresh(log)
    case None => Tally(log, FreeRefresh) == 0
    case Some(i) => (Tally(log, FreeRefresh) - 1) * Quiet(cfg) <= log[i].at
  }

  ghost predicate Budget(cfg: Config, s: System) {
    && FetchesSpaced(cfg, s.log)
    && GatesHonoured(cfg, s)
    && ExemptionsPaid(s.log)
    && RateKept(cfg, s.log)
  }

  lemma RecheckHonoursGate(cfg: Config, s: System, t: TaskId)
    requires Shape(cfg, s) && Represents(s.cache, s.log)
    requires t in s.tasks && s.tasks[t].Rechecking?
    requires Recheck(s.cache, s.tasks[t].kid, s.tasks[t].start, s.clock, cfg.backoff).Fetch?
    ensures if s.tasks[t].kid in s.cache.refreshOwed
            then EvictedSince(s.log) != {} else Rested(cfg, s.log, s.clock)
  {
    if s.tasks[t].kid !in s.cache.refreshOwed {
      RestedAfterLast(cfg, s.log, s.clock);
    }
  }

  /** Resting since the last refresh is resting since all. */
  lemma RestedAfterLast(cfg: Config, log: seq<Event>, now: Instant)
    requires LogInOrder(log, now) && (LastRefresh(log).Some? ==> now >= log[LastRefresh(log).value].at + Quiet(cfg))
    ensures Rested(cfg, log, now)
  {
    if LastRefresh(log).Some? {
      var last := LastRefresh(log).value;
      assert forall j :: 0 <= j < |log| && log[j].RefreshCompleted? ==> j <= last && log[j].at <= log[last].at;
    }
  }

  lemma EvictionKeepsBudget(cfg: Config, s: System, e: Event, s': System)
    requires Budget(cfg, s)
    requires e.Evicted? && s'.log == s.log + [e] && s'.clock == s.clock
    requires forall t :: t in s'.tasks ==> t in s.tasks && s'.tasks[t] == s.tasks[t]
    ensures Budget(cfg, s')
  {
    LogGrows(s.log, e);
    assert e.kid in EvictedSince(s'.log);
  }

  lemma OneMorePeriod(n: int, m: nat, last: int, now: int)
    requires (n - 1) * m <= last && last + m <= now
    ensures n * m <= now
  {
    assert n * m == (n - 1) * m + m;
  }

  lemma RefreshKeepsRate(cfg: Config, log: seq<Event>, e: Event)
    requires RateKept(cfg, log) && e.RefreshCompleted?
    requires forall i :: 0 <= i < |log| ==> log[i].at <= e.at
    requires !e.owed ==> Rested(cfg, log, e.at)
    ensures RateKept(cfg, log + [e])
  {
    LogGrows(log, e);
    var n: int := Tally(log, FreeRefresh);
    match LastRefresh(log)
    case None =>
      assert (n + 1 - 1) * Quiet(cfg) == 0;
      assert e.owed ==> (n - 1) * Quiet(cfg) <= 0 by { MulMonotone(n - 1, 0, Quiet(cfg)); }
    case Some(i) =>
      if !e.owed {
        OneMorePeriod(n, Quiet(cfg), log[i].at, e.at);
      }
  }

  lemma RefreshKeepsLog(cfg: Config, log: seq<Event>, e: Event)
    requires FetchesSpaced(cfg, log) && ExemptionsPaid(log) && RateKept(cfg, log) && e.RefreshCompleted?
    requires forall i :: 0 <= i < |log| ==> log[i].at <= e.at
    requires if e.owed then EvictedSince(log) != {} else Rested(cfg, log, e.at)
    ensures FetchesSpaced(cfg, log + [e]) && ExemptionsPaid(log + [e]) && RateKept(cfg, log + [e])
  {
    LogGrows(log, e);
    RefreshKeepsRate(cfg, log, e);
  }

  lemma ReplaceKeepsBudget(cfg: Config, s: System, t: TaskId, s': System)
    requires Shape(cfg, s) && Budget(cfg, s)
    requires NextStep(cfg, s, Replace(t), s')
    ensures Budget(cfg, s')
  {
    var e := RefreshCompleted(s.clock, t, s.tasks[t].owed, s.tasks[t].doc);
    RefreshKeepsLog(cfg, s.log, e);
    assert forall u :: u in s'.tasks && s'.tasks[u].PastGate() ==> u == t;
  }

  lemma StartKeepsLog(cfg: Config, log: seq<Event>, e: Event)
    requires FetchesSpaced(cfg, log) && ExemptionsPaid(log) && RateKept(cfg, log) && e.FetchStarted?
    requires !e.owed ==> Rested(cfg, log, e.at)
    ensures FetchesSpaced(cfg, log + [e]) && ExemptionsPaid(log + [e]) && RateKept(cfg, log + [e])
    ensures EvictedSince(log + [e]) == EvictedSince(log)
    ensures forall now :: Rested(cfg, log, now) ==> Rested(cfg, log + [e], now)
  {
    LogGrows(log, e);
  }

  lemma StartKeepsBudget(cfg: Config, s: System, t: TaskId, s': System)
    requires Budget(cfg, s)
    requires NextStep(cfg, s, StartFetch(t), s')
    ensures Budget(cfg, s')
  {
    var e := FetchStarted(s.clock, s.tasks[t].kid, s.tasks[t].owed);
    StartKeepsLog(cfg, s.log, e);
  }

  /** Steps that log nothing and send no task past the gate. */
  lemma QuietStepKeepsBudget(cfg: Config, s: System, s': System)
    requires Budget(cfg, s) && s'.log == s.log && s.clock <= s'.clock
    requires forall t :: t in s'.tasks && s'.tasks[t].PastGate() ==>
               t in s.tasks && s.tasks[t].PastGate() && s'.tasks[t].owed == s.tasks[t].owed
    ensures Budget(cfg, s')
  {
  }

  lemma RecheckKeepsGate(cfg: Config, s: System, t: TaskId, s': System, u: TaskId)
    requires Shape(cfg, s) && Represents(s.cache, s.log) && GatesHonoured(cfg, s)
    requires NextStep(cfg, s, RecheckCache(t), s') && u in s'.tasks && s'.tasks[u].PastGate()
    ensures if s'.tasks[u].owed then EvictedSince(s'.log) != {} else Rested(cfg, s'.log, s'.clock)
  {
    if u == t {
      RecheckHonoursGate(cfg, s, t);
    } else {
      assert u in s.tasks && s.tasks[u] == s'.tasks[u];
    }
  }

  lemma RecheckKeepsBudget(cfg: Config, s: System, t: TaskId, s': System)
    requires Shape(cfg, s) && Represents(s.cache, s.log) && Budget(cfg, s)
    requires NextStep(cfg, s, RecheckCache(t), s')
    ensures Budget(cfg, s')
  {
    assert s'.log == s.log;
    forall u | u in s'.tasks && s'.tasks[u].PastGate()
      ensures if s'.tasks[u].owed then EvictedSince(s'.log) != {} else Rested(cfg, s'.log, s'.clock)
    {
      RecheckKeepsGate(cfg, s, t, s', u);
    }
  }

  lemma EvictionStepKeepsBudget(cfg: Config, s: System, step: Step, s': System)
    requires Budget(cfg, s) && NextStep(cfg, s, step, s') && (step.Mismatch? || step.EvictUnknown?)
    ensures Budget(cfg, s')
  {
    if step.EvictUnknown? {
      EvictionKeepsBudget(cfg, s, Evicted(s.clock, step.kid, KidNotInCache), s');
    } else if Throttled(s.cache, s.tasks[step.t].kid, SignatureMismatch, s.clock, cfg.backoff) {
      QuietStepKeepsBudget(cfg, s, s');
    } else {
      EvictionKeepsBudget(cfg, s, Evicted(s.clock, s.tasks[step.t].kid, SignatureMismatch), s');
    }
  }

  predicate IsQuiet(step: Step) {
    !step.RecheckCache? && !step.StartFetch? && !step.Replace? && !step.Mismatch? && !step.EvictUnknown?
  }

  lemma QuietStepPassesNoGate(cfg: Config, s: System, step: Step, s': System)
    requires NextStep(cfg, s, step, s') && IsQuiet(step)
    ensures s'.log == s.log && s.clock <= s'.clock
    ensures forall t :: t in s'.tasks && s'.tasks[t].PastGate() ==>
              t in s.tasks && s.tasks[t].PastGate() && s'.tasks[t].owed == s.tasks[t].owed
  {
  }

  lemma BudgetKept(cfg: Config, s: System, step: Step, s': System)
    requires Shape(cfg, s) && Represents(s.cache, s.log) && Budget(cfg, s)
    requires NextStep(cfg, s, step, s')
    ensures Budget(cfg, s')
  {
    if step.RecheckCache? {
      RecheckKeepsBudget(cfg, s, step.t, s');
    } else if step.StartFetch? {
      StartKeepsBudget(cfg, s, step.t, s');
    } else if step.Replace? {
      ReplaceKeepsBudget(cfg, s, step.t, s');
    } else if step.Mismatch? || step.EvictUnknown? {
      EvictionStepKeepsBudget(cfg, s, step, s');
    } else {
      QuietStepPassesNoGate(cfg, s, step, s');
      QuietStepKeepsBudget(cfg, s, s');
    }
  }

  // ----- Over every run ------------------------------------------------------------------------

  ghost predicate Invariant(cfg: Config, s: System) {
    Shape(cfg, s) && Represents(s.cache, s.log) && Budget(cfg, s)
  }

  lemma {:induction false} RunInvariant(cfg: Config, run: seq<System>, n: nat)
    requires IsRun(cfg, run) && n < |run|
    ensures Invariant(cfg, run[n])
  {
    if n > 0 {
      RunInvariant(cfg, run, n - 1);
      assert Next(cfg, run[n - 1], run[n - 1 + 1]);
      var step :| NextStep(cfg, run[n - 1], step, run[n]);
      ShapeKept(cfg, run[n - 1], step, run[n]);
      RepresentsKept(cfg, run[n - 1], step, run[n]);
      BudgetKept(cfg, run[n - 1], step, run[n]);
    }
  }

  lemma ReachableInvariant(cfg: Config, s: System)
    requires Reachable(cfg, s)
    ensures Invariant(cfg, s)
  {
    var run :| IsRun(cfg, run) && run[|run| - 1] == s;
    RunInvariant(cfg, run, |run| - 1);
  }

  /**
   In every reachable state the cached keys are the last document minus the kids evicted since, the
   owed kids are those kids unless the set is at its cap, both bounded structures are within their
   cap, owed kids are never cached, and at most one task is past the gate.
   */
  lemma RepresentationHolds(cfg: Config, s: System)
    requires Reachable(cfg, s)
    ensures Represents(s.cache, s.log) && WithinBounds(s.cache)
    ensures |EvictedSince(s.log)| < EVICTION_MAP_MAX_ENTRIES ==> s.cache.refreshOwed == EvictedSince(s.log)
    ensures forall t, u :: t in s.tasks && u in s.tasks && s.tasks[t].PastGate() && s.tasks[u].PastGate() ==> t == u
  {
    ReachableInvariant(cfg, s);
    if s.cache.refreshOwed != EvictedSince(s.log) {
      SubsetSize(s.cache.refreshOwed, EvictedSince(s.log));
    }
  }

  /** The fetch budget: unexempted fetches are spaced out, and exempted refreshes never outnumber evictions. */
  lemma FetchBudget(cfg: Config, s: System)
    requires Reachable(cfg, s)
    ensures FetchesSpaced(cfg, s.log)
    ensures Tally(s.log, OwedRefresh) <= Tally(s.log, Eviction)
  {
    ReachableInvariant(cfg, s);
  }

  /**
   Whole-run cost: by time `clock` a run has completed at most one refresh per quiet period, plus
   one, plus one per eviction, whatever kids were asked for and however tasks interleaved.
   */
  lemma RefreshRateBounded(cfg: Config, s: System)
    requires Reachable(cfg, s)
    ensures (Tally(s.log, FreeRefresh) + Tally(s.log, OwedRefresh) - Tally(s.log, Eviction) - 1) * Quiet(cfg) <= s.clock
  {
    ReachableTallies(cfg, s);
    RateFromTallies(Tally(s.log, FreeRefresh), Tally(s.log, OwedRefresh), Tally(s.log, Eviction), Quiet(cfg), s.clock);
  }

  lemma ReachableTallies(cfg: Config, s: System)
    requires Reachable(cfg, s)
    ensures Tally(s.log, OwedRefresh) <= Tally(s.log, Eviction)
    ensures Tally(s.log, FreeRefresh) > 0 ==> (Tally(s.log, FreeRefresh) - 1) * Quiet(cfg) <= s.clock
  {
    ReachableRate(cfg, s);
    FreeTally(cfg, s.log, s.clock);
  }

  lemma ReachableRate(cfg: Config, s: System)
    requires Reachable(cfg, s)
    ensures RateKept(cfg, s.log) && ExemptionsPaid(s.log) && LogInOrder(s.log, s.clock)
  {
    ReachableInvariant(cfg, s);
  }

  lemma FreeTally(cfg: Config, log: seq<Event>, clock: Instant)
    requires RateKept(cfg, log) && LogInOrder(log, clock)
    ensures Tally(log, FreeRefresh) > 0 ==> (Tally(log, FreeRefresh) - 1) * Quiet(cfg) <= clock
  {
    var product := (Tally(log, FreeRefresh) - 1) * Quiet(cfg);
    if LastRefresh(log).Some? {
      assert product <= log[LastRefresh(log).value].at <= clock;
    }
  }

  lemma RateFromTallies(free: nat, owed: nat, evicted: nat, quiet: nat, clock: nat)
    requires owed <= evicted && (free > 0 ==> (free - 1) * quiet <= clock)
    ensures (free + owed - evicted - 1) * quiet <= clock
  {
    MulMonotone(free + owed - evicted - 1, free - 1, quiet);
    if free == 0 {
      MulMonotone(-1, 0, quiet);
    }
  }

  lemma MulMonotone(a: int, b: int, m: nat)
    requires a <= b
    ensures a * m <= b * m
  {
  }
}

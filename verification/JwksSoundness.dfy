/** Every key a call resolves to was published for that kid, by a document current during the call. */
module JwksSoundness {
  import opened Common
  import opened Jwks
  import opened JwksProtocol

  /** At instant `u`, entry `i` of the log was the current document and within its time to live. */
  ghost predicate CurrentAt(cfg: Config, log: seq<Event>, i: nat, u: Instant) {
    && i < |log| && log[i].RefreshCompleted?
    && log[i].at <= u < log[i].at + cfg.ttl
    && forall j :: i < j < |log| && log[j].RefreshCompleted? ==> u <= log[j].at
  }

  ghost predicate Publishes(log: seq<Event>, i: nat, kid: Kid, jwk: Jwk) {
    && i < |log| && log[i].RefreshCompleted?
    && kid in DocumentKeys(log[i].doc) && DocumentKeys(log[i].doc)[kid] == jwk
  }

  /**
   `jwk` is what some document lists for `kid`, and that document was current and unexpired at an
   instant between the start of the call and now, or was fetched by task `t` itself.
   */
  ghost predicate Justified(cfg: Config, s: System, t: TaskId, kid: Kid, start: Instant, jwk: Jwk) {
    exists i: nat :: Publishes(s.log, i, kid, jwk) && Timely(cfg, s, t, start, i)
  }

  ghost predicate Timely(cfg: Config, s: System, t: TaskId, start: Instant, i: nat) {
    || (i < |s.log| && s.log[i].RefreshCompleted? && s.log[i].task == t && start <= s.log[i].at)
    || exists u :: start <= u <= s.clock && CurrentAt(cfg, s.log, i, u)
  }

  /** The key a task holds, if any, is justified. */
  ghost predicate PhaseSound(cfg: Config, s: System, t: TaskId, p: Phase) {
    && (p.Resolved? ==> Justified(cfg, s, t, p.kid, p.start, p.jwk))
    && (p.Returning? && p.found.Some? ==> Justified(cfg, s, t, p.kid, p.start, p.found.value))
  }

  ghost predicate Sound(cfg: Config, s: System) {
    forall t :: t in s.tasks ==> PhaseSound(cfg, s, t, s.tasks[t])
  }

  /** A cache read judged fresh at `judged` yields a justified key, though the lock came later. */
  lemma FreshReadJustified(cfg: Config, s: System, t: TaskId, kid: Kid, start: Instant, judged: Instant)
    requires Shape(cfg, s) && Represents(s.cache, s.log)
    requires start <= judged <= s.clock
    requires s.cache.IsFresh(judged) && kid in s.cache.keys
    ensures Justified(cfg, s, t, kid, start, s.cache.keys[kid])
  {
    var i := LastRefresh(s.log).value;
    var u := if s.log[i].at <= judged then judged else s.log[i].at;
    assert Publishes(s.log, i, kid, s.cache.keys[kid]);
    assert CurrentAt(cfg, s.log, i, u);
  }

  lemma JustifiedPersists(cfg: Config, s: System, s': System, t: TaskId, kid: Kid, start: Instant, jwk: Jwk)
    requires Justified(cfg, s, t, kid, start, jwk)
    requires s.clock <= s'.clock && s.log <= s'.log
    requires forall i :: |s.log| <= i < |s'.log| ==> s'.log[i].at >= s.clock
    ensures Justified(cfg, s', t, kid, start, jwk)
  {
    var i: nat :| Publishes(s.log, i, kid, jwk) && Timely(cfg, s, t, start, i);
    assert Publishes(s'.log, i, kid, jwk);
    if u :| start <= u <= s.clock && CurrentAt(cfg, s.log, i, u) {
      assert CurrentAt(cfg, s'.log, i, u);
    }
    assert Timely(cfg, s', t, start, i);
  }

  lemma PhasePersists(cfg: Config, s: System, s': System, t: TaskId, p: Phase)
    requires PhaseSound(cfg, s, t, p)
    requires s.clock <= s'.clock && s.log <= s'.log
    requires forall i :: |s.log| <= i < |s'.log| ==> s'.log[i].at >= s.clock
    ensures PhaseSound(cfg, s', t, p)
  {
    if p.Resolved? {
      JustifiedPersists(cfg, s, s', t, p.kid, p.start, p.jwk);
    } else if p.Returning? && p.found.Some? {
      JustifiedPersists(cfg, s, s', t, p.kid, p.start, p.found.value);
    }
  }

  // ----- The steps that give a task a key --------------------------------------------------------

  lemma FastReadJustifies(cfg: Config, s: System, t: TaskId, s': System)
    requires Shape(cfg, s) && Represents(s.cache, s.log) && NextStep(cfg, s, FastRead(t), s')
    ensures PhaseSound(cfg, s', t, s'.tasks[t])
  {
    var p := s.tasks[t];
    ShapeKept(cfg, s, FastRead(t), s');
    if FastPath(s.cache, p.kid, p.start).Some? {
      FreshReadJustified(cfg, s', t, p.kid, p.start, p.start);
    }
  }

  lemma RecheckJustifies(cfg: Config, s: System, t: TaskId, s': System)
    requires Shape(cfg, s) && Represents(s.cache, s.log) && NextStep(cfg, s, RecheckCache(t), s')
    ensures PhaseSound(cfg, s', t, s'.tasks[t])
  {
    var p := s.tasks[t];
    ShapeKept(cfg, s, RecheckCache(t), s');
    if Recheck(s.cache, p.kid, p.start, s.clock, cfg.backoff).Hit? {
      FreshReadJustified(cfg, s', t, p.kid, p.start, s.clock);
    }
  }

  lemma ReplaceJustifies(cfg: Config, s: System, t: TaskId, s': System)
    requires Shape(cfg, s) && NextStep(cfg, s, Replace(t), s')
    ensures PhaseSound(cfg, s', t, s'.tasks[t])
  {
    var p := s'.tasks[t];
    if p.found.Some? {
      assert Publishes(s'.log, |s.log|, p.kid, p.found.value);
      assert Timely(cfg, s', t, p.start, |s.log|);
    }
  }

  /** Returning hands over the key that was found. */
  lemma ReturnJustifies(cfg: Config, s: System, t: TaskId, s': System)
    requires Sound(cfg, s) && NextStep(cfg, s, Return(t), s') && t in s'.tasks
    ensures PhaseSound(cfg, s', t, s'.tasks[t])
  {
    PhasePersists(cfg, s, s', t, s.tasks[t]);
  }

  predicate GivesKey(step: Step) {
    step.FastRead? || step.RecheckCache? || step.Replace? || step.Return?
  }

  /** Any other task holds what it held, or holds no key. */
  lemma OtherTasksUnchanged(cfg: Config, s: System, step: Step, s': System, t: TaskId)
    requires NextStep(cfg, s, step, s') && t in s'.tasks && !(GivesKey(step) && step.t == t)
    ensures (t in s.tasks && s'.tasks[t] == s.tasks[t])
            || (!s'.tasks[t].Resolved? && !(s'.tasks[t].Returning? && s'.tasks[t].found.Some?))
  {
  }

  lemma OtherTaskSound(cfg: Config, s: System, step: Step, s': System, t: TaskId)
    requires Sound(cfg, s) && NextStep(cfg, s, step, s') && t in s'.tasks && !(GivesKey(step) && step.t == t)
    ensures PhaseSound(cfg, s', t, s'.tasks[t])
  {
    OtherTasksUnchanged(cfg, s, step, s', t);
    LogKept(cfg, s, step, s');
    if t in s.tasks && s'.tasks[t] == s.tasks[t] {
      PhasePersists(cfg, s, s', t, s.tasks[t]);
    }
  }

  lemma SoundKept(cfg: Config, s: System, step: Step, s': System)
    requires Shape(cfg, s) && Represents(s.cache, s.log) && Sound(cfg, s)
    requires NextStep(cfg, s, step, s')
    ensures Sound(cfg, s')
  {
    forall t | t in s'.tasks ensures PhaseSound(cfg, s', t, s'.tasks[t]) {
      if !(GivesKey(step) && step.t == t) {
        OtherTaskSound(cfg, s, step, s', t);
      } else if step.FastRead? {
        FastReadJustifies(cfg, s, t, s');
      } else if step.RecheckCache? {
        RecheckJustifies(cfg, s, t, s');
      } else if step.Replace? {
        ReplaceJustifies(cfg, s, t, s');
      } else {
        ReturnJustifies(cfg, s, t, s');
      }
    }
  }

  lemma {:induction false} RunSound(cfg: Config, run: seq<System>, n: nat)
    requires IsRun(cfg, run) && n < |run|
    ensures Shape(cfg, run[n]) && Represents(run[n].cache, run[n].log) && Sound(cfg, run[n])
  {
    if n > 0 {
      RunSound(cfg, run, n - 1);
      assert Next(cfg, run[n - 1], run[n - 1 + 1]);
      var step :| NextStep(cfg, run[n - 1], step, run[n]);
      ShapeKept(cfg, run[n - 1], step, run[n]);
      RepresentsKept(cfg, run[n - 1], step, run[n]);
      SoundKept(cfg, run[n - 1], step, run[n]);
    }
  }

  /** In every reachable state, every key a call has resolved to is justified. */
  lemma ResolvedKeysAreJustified(cfg: Config, s: System, t: TaskId)
    requires Reachable(cfg, s) && t in s.tasks && s.tasks[t].Resolved?
    ensures Justified(cfg, s, t, s.tasks[t].kid, s.tasks[t].start, s.tasks[t].jwk)
  {
    var run :| IsRun(cfg, run) && run[|run| - 1] == s;
    RunSound(cfg, run, |run| - 1);
  }
}

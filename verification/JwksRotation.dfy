/**
 Two consequences for a single kid: evictions of other kids never change what happens to it, and a
 key rotated under the same kid is picked up again after one eviction.
 */
module JwksRotation {
  import opened Common
  import opened Jwks
  import opened JwksProtocol
  import opened JwksSpacing

  // ----- Isolation -------------------------------------------------------------------------------

  /** Nothing from entry `from` on refreshed the cache or evicted `kid`. */
  ghost predicate LeavesAlone(log: seq<Event>, from: nat, kid: Kid) {
    forall i :: from <= i < |log| ==> !log[i].RefreshCompleted? && (log[i].Evicted? ==> log[i].kid != kid)
  }

  ghost predicate SameDecisions(c: Cache, c': Cache, kid: Kid, backoff: nat) {
    && (forall start: Instant :: FastPath(c, kid, start) == FastPath(c', kid, start))
    && (forall start: Instant, now: Instant ::
          Recheck(c, kid, start, now, backoff) == Recheck(c', kid, start, now, backoff))
  }

  lemma EvictingOthersIsolated(c: Cache, other: Kid, reason: EvictionReason, now: Instant, c': Cache, kid: Kid, backoff: nat)
    requires Evicts(c, other, reason, now, c') && other != kid
    ensures SameDecisions(c, c', kid, backoff)
  {
    assert kid in c.keys <==> kid in c'.keys;
    assert kid in c.refreshOwed <==> kid in c'.refreshOwed;
    forall start: Instant, now: Instant
      ensures Recheck(c, kid, start, now, backoff) == Recheck(c', kid, start, now, backoff)
    {
      assert c.IsFresh(now) == c'.IsFresh(now);
    }
  }

  lemma ReplaceIsSeen(cfg: Config, s: System, t: TaskId, s': System, kid: Kid)
    requires NextStep(cfg, s, Replace(t), s')
    ensures !LeavesAlone(s'.log, |s.log|, kid)
  {
    assert s'.log[|s.log|].RefreshCompleted?;
  }

  lemma StepIsolated(cfg: Config, s: System, step: Step, s': System, kid: Kid)
    requires NextStep(cfg, s, step, s') && LeavesAlone(s'.log, |s.log|, kid)
    ensures SameDecisions(s.cache, s'.cache, kid, cfg.backoff)
  {
    match step
    case Replace(t) =>
      ReplaceIsSeen(cfg, s, t, s', kid);
      assert false;
    case Mismatch(t) =>
      if !Throttled(s.cache, s.tasks[t].kid, SignatureMismatch, s.clock, cfg.backoff) {
        assert s'.log[|s.log|].Evicted? && s'.log[|s.log|].kid == s.tasks[t].kid;
        EvictingOthersIsolated(s.cache, s.tasks[t].kid, SignatureMismatch, s.clock, s'.cache, kid, cfg.backoff);
      }
    case EvictUnknown(other) =>
      assert s'.log[|s.log|].Evicted? && s'.log[|s.log|].kid == other;
      EvictingOthersIsolated(s.cache, other, KidNotInCache, s.clock, s'.cache, kid, cfg.backoff);
    case _ =>
  }

  lemma SameDecisionsTransitive(c: Cache, c': Cache, c'': Cache, kid: Kid, backoff: nat)
    requires SameDecisions(c, c', kid, backoff) && SameDecisions(c', c'', kid, backoff)
    ensures SameDecisions(c, c'', kid, backoff)
  {
  }

  lemma {:induction false} LogsGrow(cfg: Config, run: seq<System>, a: nat, b: nat)
    requires IsRun(cfg, run) && a <= b < |run|
    ensures run[a].log <= run[b].log
  {
    if a < b {
      LogsGrow(cfg, run, a, b - 1);
      assert Next(cfg, run[b - 1], run[b - 1 + 1]);
    }
  }

  lemma AlonePrefix(log: seq<Event>, log': seq<Event>, from: nat, kid: Kid)
    requires log <= log' && from <= |log| && LeavesAlone(log', from, kid)
    ensures LeavesAlone(log, from, kid) && LeavesAlone(log', |log|, kid)
  {
    assert forall i :: 0 <= i < |log| ==> log[i] == log'[i];
  }

  /**
   Between two refreshes, no activity that spares `kid`, however many other kids it evicts,
   changes whether `kid` is answered, denied or fetched, at any instant.
   */
  lemma {:induction false} EvictionIsolation(cfg: Config, run: seq<System>, a: nat, b: nat, kid: Kid)
    requires IsRun(cfg, run) && a <= b < |run|
    requires LeavesAlone(run[b].log, |run[a].log|, kid)
    ensures SameDecisions(run[a].cache, run[b].cache, kid, cfg.backoff)
    decreases b
  {
    if a < b {
      var s, s' := run[b - 1], run[b];
      LogsGrow(cfg, run, a, b - 1);
      LogsGrow(cfg, run, b - 1, b);
      AlonePrefix(s.log, s'.log, |run[a].log|, kid);
      EvictionIsolation(cfg, run, a, b - 1, kid);
      assert Next(cfg, run[b - 1], run[b - 1 + 1]);
      var step :| NextStep(cfg, s, step, s');
      StepIsolated(cfg, s, step, s', kid);
      SameDecisionsTransitive(run[a].cache, s.cache, s'.cache, kid, cfg.backoff);
    }
  }

  // ----- One request at a time -------------------------------------------------------------------

  /** When a lone call starts, re-checks and completes its fetch. */
  datatype Timing = Timing(start: Instant, checked: Instant, completed: Instant) {
    predicate Ordered() {
      start <= checked <= completed
    }
  }

  datatype Outcome = Outcome(found: Option<Jwk>, cache: Cache, fetches: nat)

  /** `resolve_jwk` with no other task running, against an upstream that fails or returns a document. */
  function ResolveAlone(cfg: Config, c: Cache, kid: Kid, at: Timing, upstream: Option<seq<Jwk>>): Outcome {
    if FastPath(c, kid, at.start).Some? then Outcome(FastPath(c, kid, at.start), c, 0)
    else
      match Recheck(c, kid, at.start, at.checked, cfg.backoff)
      case Hit(jwk) => Outcome(Some(jwk), c, 0)
      case Deny => Outcome(None, c, 0)
      case Fetch(_) =>
        if upstream == None then Outcome(None, c, 1)
        else
          var c' := Replaced(c, upstream.value, at.completed);
          Outcome(Lookup(c', kid), c', 1)
  }

  function FetchCount(log: seq<Event>): nat {
    if log == [] then 0
    else FetchCount(log[..|log| - 1]) + if log[|log| - 1].FetchStarted? then 1 else 0
  }

  lemma Extend(cfg: Config, s: System, step: Step, s': System)
    requires Reachable(cfg, s) && NextStep(cfg, s, step, s')
    ensures Reachable(cfg, s')
  {
    var run :| IsRun(cfg, run) && run[|run| - 1] == s;
    var run' := run + [s'];
    forall i | 0 <= i < |run'| - 1 ensures Next(cfg, run'[i], run'[i + 1]) {
      if i < |run| - 1 {
        assert Next(cfg, run[i], run[i + 1]);
      }
    }
    assert IsRun(cfg, run');
  }

  /** A state no task is active in, at a given instant. */
  ghost predicate Idle(s: System) {
    s.tasks == map[] && s.permit == None
  }

  /** The state a lone call leaves: its task resolved when a key was found, gone otherwise. */
  ghost predicate LeftBy(s: System, kid: Kid, o: Outcome, s': System) {
    && s'.permit == None
    && s'.cache == o.cache
    && s'.tasks == (if o.found.Some? then map[s.spawned := Resolved(kid, s.clock, o.found.value)] else map[])
    && s.log <= s'.log
    && (forall i :: |s.log| <= i < |s'.log| ==> !s'.log[i].Evicted?)
    && FetchCount(s'.log) == FetchCount(s.log) + o.fetches
  }

  /** A lone call that misses the fast path: it starts, takes the permit and waits until its re-check. */
  lemma ReachRecheck(cfg: Config, s: System, kid: Kid, checked: Instant) returns (s': System)
    requires Reachable(cfg, s) && Idle(s) && s.clock <= checked
    requires FastPath(s.cache, kid, s.clock) == None
    ensures Reachable(cfg, s')
    ensures s' == s.(clock := checked, permit := Some(s.spawned), spawned := s.spawned + 1,
                     tasks := map[s.spawned := Rechecking(kid, s.clock)])
  {
    var t := s.spawned;
    var s1 := Goto(s, t, Started(kid, s.clock)).(spawned := t + 1);
    Extend(cfg, s, Begin(kid), s1);
    var s2 := Goto(s1, t, Waiting(kid, s.clock));
    Extend(cfg, s1, FastRead(t), s2);
    var s3 := Goto(s2, t, Rechecking(kid, s.clock)).(permit := Some(t));
    Extend(cfg, s2, Acquire(t), s3);
    s' := s3.(clock := checked);
    assert s' == s3.(clock := s3.clock + (checked - s.clock));
    Extend(cfg, s3, Tick(checked - s.clock), s');
  }

  /** A lone call cleared to fetch: it fetches, installs what came back, and returns. */
  lemma ReachFetched(cfg: Config, s: System, t: TaskId, kid: Kid, start: Instant, owed: bool, completed: Instant, doc: seq<Jwk>)
    returns (s': System)
    requires Reachable(cfg, s) && s.permit == Some(t) && s.tasks == map[t := Cleared(kid, start, owed)]
    requires s.clock <= completed
    ensures Reachable(cfg, s') && s'.clock == completed && s'.permit == None && s'.spawned == s.spawned
    ensures s'.cache == Replaced(s.cache, doc, completed)
    ensures s'.log == s.log + [FetchStarted(s.clock, kid, owed)] + [RefreshCompleted(completed, t, owed, doc)]
    ensures s'.tasks == (if kid in DocumentKeys(doc) then map[t := Resolved(kid, start, DocumentKeys(doc)[kid])] else map[])
  {
    var s1 := Logged(Goto(s, t, Fetching(kid, start, owed)), FetchStarted(s.clock, kid, owed));
    Extend(cfg, s, StartFetch(t), s1);
    var s2 := Goto(s1, t, Fetched(kid, start, owed, doc));
    Extend(cfg, s1, FetchReturns(t, doc), s2);
    var s3 := s2.(clock := completed);
    assert s3 == s2.(clock := s2.clock + (completed - s.clock));
    Extend(cfg, s2, Tick(completed - s.clock), s3);
    var c := Replaced(s3.cache, doc, completed);
    var s4 := Logged(Goto(s3, t, Returning(kid, start, Lookup(c, kid))).(cache := c), RefreshCompleted(completed, t, owed, doc));
    Extend(cfg, s3, Replace(t), s4);
    s' := if Lookup(c, kid).Some? then Goto(s4, t, Resolved(kid, start, c.keys[kid])).(permit := None) else Finish(s4, t);
    Extend(cfg, s4, Return(t), s');
  }

  lemma ReachReturned(cfg: Config, s: System, t: TaskId, kid: Kid, start: Instant, found: Option<Jwk>) returns (s': System)
    requires Reachable(cfg, s) && s.permit == Some(t) && s.tasks == map[t := Returning(kid, start, found)]
    ensures Reachable(cfg, s')
    ensures s' == s.(permit := None, tasks := if found.Some? then map[t := Resolved(kid, start, found.value)] else map[])
  {
    s' := if found.Some? then Goto(s, t, Resolved(kid, start, found.value)).(permit := None) else Finish(s, t);
    Extend(cfg, s, Return(t), s');
  }

  lemma FetchFailedIsARun(cfg: Config, s: System, t: TaskId, kid: Kid, start: Instant, owed: bool) returns (s': System)
    requires Reachable(cfg, s) && s.permit == Some(t) && s.tasks == map[t := Cleared(kid, start, owed)]
    ensures Reachable(cfg, s')
    ensures s' == s.(permit := None, tasks := map[], log := s.log + [FetchStarted(s.clock, kid, owed)])
  {
    var s1 := Logged(Goto(s, t, Fetching(kid, start, owed)), FetchStarted(s.clock, kid, owed));
    Extend(cfg, s, StartFetch(t), s1);
    var s2 := Goto(s1, t, Returning(kid, start, None));
    Extend(cfg, s1, FetchFails(t), s2);
    s' := ReachReturned(cfg, s2, t, kid, start, None);
  }

  lemma FastIsARun(cfg: Config, s: System, kid: Kid) returns (s': System)
    requires Reachable(cfg, s) && Idle(s) && FastPath(s.cache, kid, s.clock).Some?
    ensures Reachable(cfg, s')
    ensures s' == s.(spawned := s.spawned + 1, tasks := map[s.spawned := Resolved(kid, s.clock, s.cache.keys[kid])])
  {
    var t := s.spawned;
    var s1 := Goto(s, t, Started(kid, s.clock)).(spawned := t + 1);
    Extend(cfg, s, Begin(kid), s1);
    s' := Goto(s1, t, Resolved(kid, s.clock, s.cache.keys[kid]));
    Extend(cfg, s1, FastRead(t), s');
  }

  lemma RecheckIsARun(cfg: Config, s: System, kid: Kid, checked: Instant) returns (s': System)
    requires Reachable(cfg, s) && Idle(s) && s.clock <= checked
    requires FastPath(s.cache, kid, s.clock) == None
    ensures Reachable(cfg, s')
    ensures s' == s.(clock := checked, permit := Some(s.spawned), spawned := s.spawned + 1,
                     tasks := map[s.spawned :=
                       match Recheck(s.cache, kid, s.clock, checked, cfg.backoff)
                       case Hit(jwk) => Returning(kid, s.clock, Some(jwk))
                       case Deny => Returning(kid, s.clock, None)
                       case Fetch(owed) => Cleared(kid, s.clock, owed)])
  {
    var s1 := ReachRecheck(cfg, s, kid, checked);
    s' := Goto(s1, s.spawned,
      match Recheck(s.cache, kid, s.clock, checked, cfg.backoff)
      case Hit(jwk) => Returning(kid, s.clock, Some(jwk))
      case Deny => Returning(kid, s.clock, None)
      case Fetch(owed) => Cleared(kid, s.clock, owed));
    Extend(cfg, s1, RecheckCache(s.spawned), s');
  }

  /** A lone call whose re-check cleared it to fetch. */
  lemma FetchingIsARun(cfg: Config, s: System, s1: System, kid: Kid, at: Timing, owed: bool, upstream: Option<seq<Jwk>>) returns (s': System)
    requires Reachable(cfg, s1) && at.Ordered() && at.start == s.clock && s1.clock == at.checked
    requires s1.permit == Some(s.spawned) && s1.tasks == map[s.spawned := Cleared(kid, s.clock, owed)]
    requires s1.log == s.log && s1.cache == s.cache
    requires FastPath(s.cache, kid, at.start) == None
    requires Recheck(s.cache, kid, at.start, at.checked, cfg.backoff) == Fetch(owed)
    ensures Reachable(cfg, s') && LeftBy(s, kid, ResolveAlone(cfg, s.cache, kid, at, upstream), s')
    ensures at.start <= s'.clock <= at.completed
  {
    var e := FetchStarted(at.checked, kid, owed);
    LogGrows(s.log, e);
    if upstream.Some? {
      s' := ReachFetched(cfg, s1, s.spawned, kid, s.clock, owed, at.completed, upstream.value);
      LogGrows(s.log + [e], RefreshCompleted(at.completed, s.spawned, owed, upstream.value));
    } else {
      s' := FetchFailedIsARun(cfg, s1, s.spawned, kid, s.clock, owed);
    }
  }

  /** Every lone call is a run of the protocol. */
  lemma AloneIsARun(cfg: Config, s: System, kid: Kid, at: Timing, upstream: Option<seq<Jwk>>) returns (s': System)
    requires Reachable(cfg, s) && Idle(s) && at.Ordered() && at.start == s.clock
    ensures Reachable(cfg, s') && LeftBy(s, kid, ResolveAlone(cfg, s.cache, kid, at, upstream), s')
    ensures at.start <= s'.clock <= at.completed
  {
    if FastPath(s.cache, kid, s.clock).Some? {
      s' := FastIsARun(cfg, s, kid);
    } else {
      var s1 := RecheckIsARun(cfg, s, kid, at.checked);
      var p := s1.tasks[s.spawned];
      if p.Returning? {
        s' := ReachReturned(cfg, s1, s.spawned, kid, s.clock, p.found);
      } else {
        s' := FetchingIsARun(cfg, s, s1, kid, at, p.owed, upstream);
      }
    }
  }

  // ----- Rotation under the same kid -------------------------------------------------------------

  /**
   A lone validation: resolve, then check the token's signature with `accepts`; a mismatch evicts the
   kid at `judged` unless the backoff throttles it.
   */
  ghost predicate ValidatesAlone(cfg: Config, c: Cache, kid: Kid, at: Timing, judged: Instant, upstream: Option<seq<Jwk>>,
                                 accepts: Jwk -> bool, accepted: bool, c': Cache, fetches: nat)
  {
    var o := ResolveAlone(cfg, c, kid, at, upstream);
    && at.Ordered() && at.completed <= judged
    && fetches == o.fetches
    && accepted == (o.found.Some? && accepts(o.found.value))
    && (if accepted || o.found == None || Throttled(o.cache, kid, SignatureMismatch, judged, cfg.backoff)
        then c' == o.cache
        else Evicts(o.cache, kid, SignatureMismatch, judged, c'))
  }

  /** Every lone validation is a run of the protocol that ends with no task left. */
  lemma ValidationIsARun(cfg: Config, s: System, kid: Kid, at: Timing, judged: Instant, upstream: Option<seq<Jwk>>,
                         accepts: Jwk -> bool, accepted: bool, c': Cache, fetches: nat) returns (s': System)
    requires Reachable(cfg, s) && Idle(s) && at.start == s.clock
    requires ValidatesAlone(cfg, s.cache, kid, at, judged, upstream, accepts, accepted, c', fetches)
    ensures Reachable(cfg, s') && Idle(s') && s'.cache == c' && s'.clock == judged
    ensures FetchCount(s'.log) == FetchCount(s.log) + fetches
  {
    var o := ResolveAlone(cfg, s.cache, kid, at, upstream);
    var s1 := AloneIsARun(cfg, s, kid, at, upstream);
    var s2 := s1.(clock := judged);
    assert s2 == s1.(clock := s1.clock + (judged - s1.clock));
    Extend(cfg, s1, Tick(judged - s1.clock), s2);
    if o.found == None {
      s' := s2;
    } else if accepted {
      s' := Finish(s2, s.spawned);
      Extend(cfg, s2, Conclude(s.spawned), s');
    } else if Throttled(o.cache, kid, SignatureMismatch, judged, cfg.backoff) {
      s' := Finish(s2, s.spawned);
      Extend(cfg, s2, Mismatch(s.spawned), s');
    } else {
      var e := Evicted(judged, kid, SignatureMismatch);
      LogGrows(s2.log, e);
      s' := Logged(Finish(s2, s.spawned), e).(cache := c');
      Extend(cfg, s2, Mismatch(s.spawned), s');
    }
  }

  /** Every mismatch eviction of `kid` the run has made is at least the backoff before `now`. */
  ghost predicate BackoffOver(cfg: Config, log: seq<Event>, kid: Kid, now: Instant) {
    forall i :: 0 <= i < |log| && IsMismatch(log[i]) && log[i].kid == kid ==> log[i].at + cfg.backoff <= now
  }

  lemma UnthrottledWhenOver(cfg: Config, s: System, kid: Kid, now: Instant)
    requires Reachable(cfg, s) && BackoffOver(cfg, s.log, kid, now)
    ensures !Throttled(s.cache, kid, SignatureMismatch, now, cfg.backoff)
  {
    var run :| IsRun(cfg, run) && run[|run| - 1] == s;
    RunMemory(cfg, run, |run| - 1);
    if kid in s.cache.evictions {
      var i :| 0 <= i < |s.log| && s.log[i] == Evicted(s.cache.evictions[kid], kid, SignatureMismatch);
    }
  }

  /** A token for a rotated key, while the old one is cached: a stale cache is refreshed, a fresh one evicts. */
  lemma FirstToken(cfg: Config, c: Cache, kid: Kid, doc: seq<Jwk>, accepts: Jwk -> bool,
                   at: Timing, judged: Instant, accepted: bool, c': Cache, fetches: nat)
    requires kid in c.keys && kid !in c.refreshOwed && |c.refreshOwed| < EVICTION_MAP_MAX_ENTRIES
    requires kid in DocumentKeys(doc) && accepts(DocumentKeys(doc)[kid]) && !accepts(c.keys[kid])
    requires !Throttled(c, kid, SignatureMismatch, judged, cfg.backoff)
    requires ValidatesAlone(cfg, c, kid, at, judged, Some(doc), accepts, accepted, c', fetches)
    ensures accepted ==> fetches == 1 && !c.IsFresh(at.start)
    ensures !accepted ==> fetches == 0 && kid !in c'.keys && kid in c'.refreshOwed
  {
    var o := ResolveAlone(cfg, c, kid, at, Some(doc));
    if c.IsFresh(at.start) || c.IsFresh(at.checked) {
      assert o == Outcome(Some(c.keys[kid]), c, 0);
    } else {
      assert o.fetches == 1 && o.found == Some(DocumentKeys(doc)[kid]);
    }
  }

  /** A kid owed a refresh is fetched whatever the cooldown says. */
  lemma OwedToken(cfg: Config, c: Cache, kid: Kid, doc: seq<Jwk>, accepts: Jwk -> bool,
                  at: Timing, judged: Instant, accepted: bool, c': Cache, fetches: nat)
    requires kid !in c.keys && kid in c.refreshOwed
    requires kid in DocumentKeys(doc) && accepts(DocumentKeys(doc)[kid])
    requires ValidatesAlone(cfg, c, kid, at, judged, Some(doc), accepts, accepted, c', fetches)
    ensures accepted && fetches == 1
  {
    assert ResolveAlone(cfg, c, kid, at, Some(doc)).found == Some(DocumentKeys(doc)[kid]);
  }

  /**
   The provider replaced the key under `kid`; fetches now return a document `doc` that lists the new
   one. From any reachable idle state that still caches the old key and has room to owe a refresh,
   the first token signed with the new key is accepted, or it evicts the kid and then the next one is
   accepted after exactly one fetch, however recent the last refresh was.
   */
  lemma RotationRecovers(cfg: Config, s: System, kid: Kid, doc: seq<Jwk>, accepts: Jwk -> bool,
                         first: Timing, firstJudged: Instant, firstAccepted: bool, c1: Cache, firstFetches: nat,
                         second: Timing, secondJudged: Instant, secondAccepted: bool, c2: Cache, secondFetches: nat)
    requires Reachable(cfg, s) && Idle(s) && s.clock == first.start
    requires kid in s.cache.keys && |s.cache.refreshOwed| < EVICTION_MAP_MAX_ENTRIES
    requires kid in DocumentKeys(doc) && accepts(DocumentKeys(doc)[kid])
    requires !accepts(s.cache.keys[kid])
    requires BackoffOver(cfg, s.log, kid, firstJudged)
    requires ValidatesAlone(cfg, s.cache, kid, first, firstJudged, Some(doc), accepts, firstAccepted, c1, firstFetches)
    requires firstJudged <= second.start
    requires ValidatesAlone(cfg, c1, kid, second, secondJudged, Some(doc), accepts, secondAccepted, c2, secondFetches)
    ensures firstAccepted ==> firstFetches == 1 && !s.cache.IsFresh(first.start)
    ensures !firstAccepted ==>
              && firstFetches == 0 && kid !in c1.keys && kid in c1.refreshOwed
              && secondAccepted && secondFetches == 1
    ensures firstAccepted || secondAccepted
  {
    UnthrottledWhenOver(cfg, s, kid, firstJudged);
    var run :| IsRun(cfg, run) && run[|run| - 1] == s;
    RunMemory(cfg, run, |run| - 1);
    FirstToken(cfg, s.cache, kid, doc, accepts, first, firstJudged, firstAccepted, c1, firstFetches);
    if !firstAccepted {
      OwedToken(cfg, c1, kid, doc, accepts, second, secondJudged, secondAccepted, c2, secondFetches);
    }
  }
}

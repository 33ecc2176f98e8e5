/**
 What a call is answered, said on the log and the clock alone: when it is denied, when it is served from
 the cache and when it fetches; and that a kid the provider has only now published is found.
 */
module JwksDecision {
  import opened Common
  import opened Jwks
  import opened JwksProtocol
  import opened JwksBudget
  import opened JwksRotation

  // ----- The state of the cache, by position in the log ------------------------------------------

  /** Entry `r` is the last completed refresh. */
  ghost predicate LastCompleted(log: seq<Event>, r: nat) {
    r < |log| && log[r].RefreshCompleted? && forall j :: r < j < |log| ==> !log[j].RefreshCompleted?
  }

  ghost predicate EvictedAfter(log: seq<Event>, r: nat, kid: Kid) {
    exists j :: r < j < |log| && log[j].Evicted? && log[j].kid == kid
  }

  /** Refresh `r` lists the kid, the last time at entry `i` of its document, and nothing evicted it since. */
  ghost predicate ServesEntry(log: seq<Event>, r: nat, kid: Kid, i: nat)
    requires LastCompleted(log, r)
  {
    LastEntryFor(log[r].doc, kid, i) && !EvictedAfter(log, r, kid)
  }

  /** Refresh `r` does not list the kid, or it was evicted since. */
  ghost predicate Misses(log: seq<Event>, r: nat, kid: Kid)
    requires LastCompleted(log, r)
  {
    (forall i :: 0 <= i < |log[r].doc| ==> log[r].doc[i].kid != Some(kid)) || EvictedAfter(log, r, kid)
  }

  lemma {:induction false} LastListed(doc: seq<Jwk>, kid: Kid, n: nat) returns (i: nat)
    requires n < |doc| && doc[n].kid == Some(kid)
    ensures LastEntryFor(doc, kid, i)
    decreases |doc| - n
  {
    if m: nat :| n < m < |doc| && doc[m].kid == Some(kid) {
      i := LastListed(doc, kid, m);
    } else {
      i := n;
    }
  }

  lemma ServesOrMisses(log: seq<Event>, r: nat, kid: Kid)
    requires LastCompleted(log, r)
    ensures Misses(log, r, kid) <==> !exists i: nat :: ServesEntry(log, r, kid, i)
  {
    if n: nat :| n < |log[r].doc| && log[r].doc[n].kid == Some(kid) {
      var i := LastListed(log[r].doc, kid, n);
      assert !EvictedAfter(log, r, kid) ==> ServesEntry(log, r, kid, i);
    }
  }

  lemma EvictedAfterMeaning(log: seq<Event>, r: nat, kid: Kid)
    requires LastCompleted(log, r)
    ensures EvictedAfter(log, r, kid) <==> kid in EvictedSince(log)
  {
    EvictedSinceMeaning(log, kid);
    if kid in EvictedSince(log) {
      var i: nat :| EvictedAt(log, kid, i);
    }
    if j :| r < j < |log| && log[j].Evicted? && log[j].kid == kid {
      assert EvictedAt(log, kid, j);
    }
  }

  /** The cache after refresh `r`, entry by entry. */
  lemma CacheByLog(cfg: Config, s: System, r: nat, kid: Kid)
    requires Reachable(cfg, s) && LastCompleted(s.log, r)
    ensures s.cache.fetchedAt == s.cache.lastRefreshCompleted == Some(s.log[r].at) && s.log[r].at <= s.clock && s.cache.ttl == cfg.ttl
    ensures kid in s.cache.keys <==> !Misses(s.log, r, kid)
    ensures forall i: nat :: ServesEntry(s.log, r, kid, i) ==> kid in s.cache.keys && s.cache.keys[kid] == s.log[r].doc[i]
  {
    ReachableInvariant(cfg, s);
    EvictedAfterMeaning(s.log, r, kid);
    DocumentKeysAreLastEntries(s.log[r].doc, kid);
    ServesOrMisses(s.log, r, kid);
  }

  lemma EmptyByLog(cfg: Config, s: System)
    requires Reachable(cfg, s) && !exists r: nat :: LastCompleted(s.log, r)
    ensures s.cache.fetchedAt == s.cache.lastRefreshCompleted == None && s.cache.keys == map[]
  {
    ReachableInvariant(cfg, s);
    if LastRefresh(s.log).Some? {
      assert LastCompleted(s.log, LastRefresh(s.log).value);
    }
  }

  // ----- The decision under the permit -----------------------------------------------------------

  /** Refresh `r` is still fresh now, and the call began within the cooldown after it. */
  ghost predicate DeniedAfter(cfg: Config, s: System, r: nat, kid: Kid, start: Instant) {
    && LastCompleted(s.log, r) && s.clock < s.log[r].at + cfg.ttl
    && 0 < cfg.backoff && start < s.log[r].at + cfg.backoff
    && Misses(s.log, r, kid) && kid !in s.cache.refreshOwed
  }

  /** Refresh `r` is still fresh now and serves the kid with this key. */
  ghost predicate ServedFrom(cfg: Config, s: System, r: nat, kid: Kid, jwk: Jwk) {
    && LastCompleted(s.log, r) && s.clock < s.log[r].at + cfg.ttl
    && exists i: nat :: ServesEntry(s.log, r, kid, i) && jwk == s.log[r].doc[i]
  }

  ghost predicate Denied(cfg: Config, s: System, kid: Kid, start: Instant) {
    exists r: nat :: DeniedAfter(cfg, s, r, kid, start)
  }

  ghost predicate Served(cfg: Config, s: System, kid: Kid, jwk: Jwk) {
    exists r: nat :: ServedFrom(cfg, s, r, kid, jwk)
  }

  lemma OneLast(log: seq<Event>, r: nat, r': nat)
    requires LastCompleted(log, r) && LastCompleted(log, r')
    ensures r == r'
  {
  }

  /** What a task goes on to after its re-check. */
  ghost predicate Decided(cfg: Config, s: System, kid: Kid, start: Instant, p: Phase) {
    && (p == Returning(kid, start, None) <==> Denied(cfg, s, kid, start))
    && (forall jwk :: p == Returning(kid, start, Some(jwk)) <==> Served(cfg, s, kid, jwk))
    && (p == Cleared(kid, start, kid in s.cache.refreshOwed) <==>
          !Denied(cfg, s, kid, start) && !exists jwk :: Served(cfg, s, kid, jwk))
  }

  lemma DecidedAfter(cfg: Config, s: System, kid: Kid, start: Instant, p: Phase, r: nat)
    requires LastCompleted(s.log, r)
    requires p == Returning(kid, start, None) <==> DeniedAfter(cfg, s, r, kid, start)
    requires forall jwk :: p == Returning(kid, start, Some(jwk)) <==> ServedFrom(cfg, s, r, kid, jwk)
    requires (p.Returning? && p.kid == kid && p.start == start) || p == Cleared(kid, start, kid in s.cache.refreshOwed)
    ensures Decided(cfg, s, kid, start, p)
  {
    forall r': nat | LastCompleted(s.log, r') ensures r' == r {
      OneLast(s.log, r, r');
    }
    assert Denied(cfg, s, kid, start) <==> DeniedAfter(cfg, s, r, kid, start);
    forall jwk ensures Served(cfg, s, kid, jwk) <==> ServedFrom(cfg, s, r, kid, jwk) {
    }
    if p.Returning? && p.found.Some? {
      assert ServedFrom(cfg, s, r, kid, p.found.value);
    }
  }

  lemma RecheckAfter(cfg: Config, s: System, t: TaskId, s': System, r: nat)
    requires Reachable(cfg, s) && NextStep(cfg, s, RecheckCache(t), s') && LastCompleted(s.log, r)
    ensures var kid, start, p := s.tasks[t].kid, s.tasks[t].start, s'.tasks[t];
            && (p == Returning(kid, start, None) <==> DeniedAfter(cfg, s, r, kid, start))
            && (forall jwk :: p == Returning(kid, start, Some(jwk)) <==> ServedFrom(cfg, s, r, kid, jwk))
            && ((p.Returning? && p.kid == kid && p.start == start) || p == Cleared(kid, start, kid in s.cache.refreshOwed))
  {
    var kid := s.tasks[t].kid;
    CacheByLog(cfg, s, r, kid);
    ServesOrMisses(s.log, r, kid);
  }

  /**
   In every reachable state, a task that re-checks the cache is denied if and only if the last completed
   refresh is still fresh, the call began within the cooldown after it, it does not serve the kid, and the
   kid is not owed a refresh. It is served if and only if that refresh is fresh and lists the kid, not
   evicted since, and then with the last entry listed. Otherwise, and only then, it is cleared to fetch.
   */
  lemma DecidedExactly(cfg: Config, s: System, t: TaskId, s': System)
    requires Reachable(cfg, s) && NextStep(cfg, s, RecheckCache(t), s')
    ensures t in s'.tasks && Decided(cfg, s, s.tasks[t].kid, s.tasks[t].start, s'.tasks[t])
  {
    var kid, start := s.tasks[t].kid, s.tasks[t].start;
    if r: nat :| LastCompleted(s.log, r) {
      RecheckAfter(cfg, s, t, s', r);
      DecidedAfter(cfg, s, kid, start, s'.tasks[t], r);
    } else {
      EmptyByLog(cfg, s);
      assert !Denied(cfg, s, kid, start) && forall jwk :: !Served(cfg, s, kid, jwk);
    }
  }

  /** Below the cap, the kids owed a refresh are those evicted since the last one. */
  lemma OwedByLog(cfg: Config, s: System, r: nat, kid: Kid)
    requires Reachable(cfg, s) && LastCompleted(s.log, r) && |EvictedSince(s.log)| < EVICTION_MAP_MAX_ENTRIES
    ensures kid in s.cache.refreshOwed <==> EvictedAfter(s.log, r, kid)
  {
    RepresentationHolds(cfg, s);
    EvictedAfterMeaning(s.log, r, kid);
  }

  /** The first look, before the permit: served if and only if the last refresh was fresh when the call began. */
  lemma FirstLookExactly(cfg: Config, s: System, t: TaskId, s': System, jwk: Jwk)
    requires Reachable(cfg, s) && NextStep(cfg, s, FastRead(t), s')
    ensures var kid, start := s.tasks[t].kid, s.tasks[t].start;
            s'.tasks[t] == Resolved(kid, start, jwk) <==>
            exists r: nat, i: nat ::
              && LastCompleted(s.log, r) && 0 < cfg.ttl && start < s.log[r].at + cfg.ttl
              && ServesEntry(s.log, r, kid, i) && jwk == s.log[r].doc[i]
  {
    var kid, start := s.tasks[t].kid, s.tasks[t].start;
    if r: nat :| LastCompleted(s.log, r) {
      CacheByLog(cfg, s, r, kid);
      ServesOrMisses(s.log, r, kid);
      forall r': nat | LastCompleted(s.log, r') ensures r' == r {
        OneLast(s.log, r, r');
      }
    } else {
      EmptyByLog(cfg, s);
    }
  }

  // ----- A kid published since the last refresh --------------------------------------------------

  /** The last refresh, if there is one, does not serve the kid, and its cooldown is over. */
  ghost predicate DueForFetch(cfg: Config, s: System, kid: Kid) {
    forall r: nat :: LastCompleted(s.log, r) ==> Misses(s.log, r, kid) && s.log[r].at + cfg.backoff <= s.clock
  }

  /** A step of task `t`, or time passing; the provider fails or returns this document. */
  ghost predicate OwnStep(step: Step, t: TaskId, upstream: Option<seq<Jwk>>) {
    match step
    case Tick(_) => true
    case FastRead(u) => u == t
    case Acquire(u) => u == t
    case RecheckCache(u) => u == t
    case StartFetch(u) => u == t
    case FetchFails(u) => u == t && upstream == None
    case FetchReturns(u, doc) => u == t && upstream == Some(doc)
    case Replace(u) => u == t
    case Return(u) => u == t
    case _ => false
  }

  /** From an idle state, one call for a kid and whatever it does with nothing beside it. */
  ghost predicate LoneCall(cfg: Config, s: System, kid: Kid, upstream: Option<seq<Jwk>>, steps: seq<Step>, path: seq<System>) {
    && Idle(s) && |path| == |steps| + 1 && path[0] == s && steps != [] && steps[0] == Begin(kid)
    && (forall i :: 0 <= i < |steps| ==> NextStep(cfg, path[i], steps[i], path[i + 1]))
    && forall i :: 0 < i < |steps| ==> OwnStep(steps[i], s.spawned, upstream)
  }

  /** Nothing but the clock, the permit and the call itself has changed. */
  ghost predicate Unchanged(s: System, e: System) {
    e.cache == s.cache && e.log == s.log
  }

  ghost predicate FetchBegun(s: System, e: System) {
    e.cache == s.cache && s.log <= e.log && |e.log| == |s.log| + 1 && e.log[|s.log|].FetchStarted?
  }

  /** One fetch and nothing else was logged, but for the refresh it led to. */
  ghost predicate FetchedOnce(s: System, e: System, upstream: Option<seq<Jwk>>) {
    && s.log <= e.log && |e.log| == |s.log| + (if upstream.Some? then 2 else 1)
    && e.log[|s.log|].FetchStarted? && (upstream.Some? ==> e.log[|s.log| + 1].RefreshCompleted?)
  }

  ghost function Answer(kid: Kid, upstream: Option<seq<Jwk>>): Option<Jwk> {
    if upstream.Some? && kid in DocumentKeys(upstream.value) then Some(DocumentKeys(upstream.value)[kid]) else None
  }

  /** How far a lone call that is due for a fetch has come. */
  ghost predicate Progress(s: System, kid: Kid, upstream: Option<seq<Jwk>>, e: System) {
    var t, start := s.spawned, s.clock;
    if t !in e.tasks then Answer(kid, upstream) == None && FetchedOnce(s, e, upstream)
    else
      match e.tasks[t]
      case Started(k, at) => k == kid && at == start && Unchanged(s, e)
      case Waiting(k, at) => k == kid && at == start && Unchanged(s, e)
      case Rechecking(k, at) => k == kid && at == start && Unchanged(s, e)
      case Cleared(k, at, _) => k == kid && at == start && Unchanged(s, e)
      case Fetching(k, at, _) => k == kid && at == start && FetchBegun(s, e)
      case Fetched(k, at, _, doc) => k == kid && at == start && FetchBegun(s, e) && upstream == Some(doc)
      case Returning(k, at, found) => k == kid && at == start && found == Answer(kid, upstream) && FetchedOnce(s, e, upstream)
      case Resolved(k, at, jwk) => k == kid && at == start && Some(jwk) == Answer(kid, upstream) && FetchedOnce(s, e, upstream)
  }

  lemma DueClears(cfg: Config, s: System, kid: Kid, e: System, e': System)
    requires Reachable(cfg, e) && DueForFetch(cfg, s, kid) && Unchanged(s, e)
    requires s.spawned in e.tasks && e.tasks[s.spawned] == Rechecking(kid, s.clock) && NextStep(cfg, e, RecheckCache(s.spawned), e')
    ensures e'.tasks == e.tasks[s.spawned := Cleared(kid, s.clock, kid in e.cache.refreshOwed)]
  {
    DecidedExactly(cfg, e, s.spawned, e');
    NothingServed(cfg, s, kid, e);
  }

  lemma NothingServed(cfg: Config, s: System, kid: Kid, e: System)
    requires DueForFetch(cfg, s, kid) && Unchanged(s, e)
    ensures forall r: nat, i: nat :: !(LastCompleted(e.log, r) && ServesEntry(e.log, r, kid, i))
    ensures forall jwk :: !Served(cfg, e, kid, jwk)
  {
    forall r: nat | LastCompleted(e.log, r) ensures forall i: nat :: !ServesEntry(e.log, r, kid, i) {
      ServesOrMisses(e.log, r, kid);
    }
  }

  lemma DueMissesFirst(cfg: Config, s: System, kid: Kid, e: System, e': System)
    requires Reachable(cfg, e) && DueForFetch(cfg, s, kid) && Unchanged(s, e)
    requires s.spawned in e.tasks && e.tasks[s.spawned] == Started(kid, s.clock) && NextStep(cfg, e, FastRead(s.spawned), e')
    ensures e'.tasks == e.tasks[s.spawned := Waiting(kid, s.clock)]
  {
    NothingServed(cfg, s, kid, e);
    forall jwk ensures e'.tasks[s.spawned] != Resolved(kid, s.clock, jwk) {
      FirstLookExactly(cfg, e, s.spawned, e', jwk);
    }
  }

  lemma ProgressKept(cfg: Config, s: System, kid: Kid, upstream: Option<seq<Jwk>>, e: System, step: Step, e': System)
    requires Reachable(cfg, e) && DueForFetch(cfg, s, kid) && Progress(s, kid, upstream, e)
    requires NextStep(cfg, e, step, e') && OwnStep(step, s.spawned, upstream)
    ensures Progress(s, kid, upstream, e')
  {
    match step
    case FastRead(_) => DueMissesFirst(cfg, s, kid, e, e');
    case RecheckCache(_) => DueClears(cfg, s, kid, e, e');
    case Replace(_) => RefreshIsInstalled(cfg, s, kid, upstream, e, e');
    case _ =>
  }

  lemma RefreshIsInstalled(cfg: Config, s: System, kid: Kid, upstream: Option<seq<Jwk>>, e: System, e': System)
    requires s.spawned in e.tasks && FetchBegun(s, e) && NextStep(cfg, e, Replace(s.spawned), e')
    requires e.tasks[s.spawned].kid == kid && upstream == Some(e.tasks[s.spawned].doc)
    ensures FetchedOnce(s, e', upstream)
    ensures e'.tasks[s.spawned] == Returning(kid, e.tasks[s.spawned].start, Answer(kid, upstream))
  {
  }

  lemma {:induction false} LoneProgress(cfg: Config, s: System, kid: Kid, upstream: Option<seq<Jwk>>, steps: seq<Step>, path: seq<System>, n: nat)
    requires Reachable(cfg, s) && DueForFetch(cfg, s, kid) && LoneCall(cfg, s, kid, upstream, steps, path) && 0 < n < |path|
    ensures Reachable(cfg, path[n]) && Progress(s, kid, upstream, path[n])
  {
    assert NextStep(cfg, path[n - 1], steps[n - 1], path[n - 1 + 1]);
    if n == 1 {
      Extend(cfg, s, Begin(kid), path[1]);
    } else {
      LoneProgress(cfg, s, kid, upstream, steps, path, n - 1);
      Extend(cfg, path[n - 1], steps[n - 1], path[n]);
      ProgressKept(cfg, s, kid, upstream, path[n - 1], steps[n - 1], path[n]);
    }
  }

  /** The call has come back, with a key or with none. */
  ghost predicate Over(s: System, e: System) {
    s.spawned in e.tasks ==> e.tasks[s.spawned].Resolved?
  }

  lemma OnceIsOne(s: System, e: System, upstream: Option<seq<Jwk>>)
    requires FetchedOnce(s, e, upstream)
    ensures FetchCount(e.log) == FetchCount(s.log) + 1
  {
    LogGrows(s.log, e.log[|s.log|]);
    if upstream.Some? {
      LogGrows(s.log + [e.log[|s.log|]], e.log[|s.log| + 1]);
      assert e.log == s.log + [e.log[|s.log|]] + [e.log[|s.log| + 1]];
    } else {
      assert e.log == s.log + [e.log[|s.log|]];
    }
  }

  /** The call found this key. */
  ghost predicate Found(s: System, e: System, kid: Kid, jwk: Jwk) {
    s.spawned in e.tasks && e.tasks[s.spawned] == Resolved(kid, s.clock, jwk)
  }

  /**
   A kid the last refresh does not serve, asked for once its cooldown is over. However a lone call for it
   goes, from any reachable idle state, when it comes back it has made exactly one fetch. It has found a
   key if and only if the fetched document lists the kid, and then the last entry listed.
   */
  lemma NewKidRecovers(cfg: Config, s: System, kid: Kid, upstream: Option<seq<Jwk>>, steps: seq<Step>, path: seq<System>)
    requires Reachable(cfg, s) && DueForFetch(cfg, s, kid) && LoneCall(cfg, s, kid, upstream, steps, path)
    requires Over(s, path[|steps|])
    ensures FetchCount(path[|steps|].log) == FetchCount(s.log) + 1
    ensures forall jwk :: Found(s, path[|steps|], kid, jwk) <==>
              upstream.Some? && exists i: nat :: LastEntryFor(upstream.value, kid, i) && jwk == upstream.value[i]
  {
    LoneProgress(cfg, s, kid, upstream, steps, path, |steps|);
    OnceIsOne(s, path[|steps|], upstream);
    if upstream.Some? {
      DocumentKeysAreLastEntries(upstream.value, kid);
    }
  }

  /** Such a call can always come back: with what is fetched for it, at any later instants. */
  lemma NewKidIsAnswered(cfg: Config, s: System, kid: Kid, at: Timing, doc: seq<Jwk>, i: nat) returns (e: System)
    requires Reachable(cfg, s) && Idle(s) && DueForFetch(cfg, s, kid) && at.Ordered() && at.start == s.clock && LastEntryFor(doc, kid, i)
    ensures Reachable(cfg, e) && e.clock == at.completed && Found(s, e, kid, doc[i]) && FetchCount(e.log) == FetchCount(s.log) + 1
  {
    var t := s.spawned;
    DueMissesNow(cfg, s, kid);
    var s1 := ReachRecheck(cfg, s, kid, at.checked);
    var s2 := RecheckIsARun(cfg, s, kid, at.checked);
    assert NextStep(cfg, s1, RecheckCache(t), s2);
    DueClears(cfg, s, kid, s1, s2);
    var owed := kid in s.cache.refreshOwed;
    e := ReachFetched(cfg, s2, t, kid, s.clock, owed, at.completed, doc);
    DocumentKeysAreLastEntries(doc, kid);
    LogGrows(s.log, FetchStarted(at.checked, kid, owed));
    LogGrows(s.log + [FetchStarted(at.checked, kid, owed)], RefreshCompleted(at.completed, t, owed, doc));
  }

  lemma DueMissesNow(cfg: Config, s: System, kid: Kid)
    requires Reachable(cfg, s) && DueForFetch(cfg, s, kid)
    ensures FastPath(s.cache, kid, s.clock) == None
  {
    if r: nat :| LastCompleted(s.log, r) {
      CacheByLog(cfg, s, r, kid);
    } else {
      EmptyByLog(cfg, s);
    }
  }
}

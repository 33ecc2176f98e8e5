/**
 The refresh protocol around the cache, as a transition system: any number of validation tasks
 interleave between their lock sections, time passes, fetches fail or return any document, and a
 task may be dropped at any point. The log records what a whole run did.
 */
module JwksProtocol {
  import opened Common
  import opened Jwks

  datatype Config = Config(ttl: nat, backoff: nat)

  type TaskId = nat

  /** Where a task stands. `start` is the instant its call captured before any lock. */
  datatype Phase =
    | Started(kid: Kid, start: Instant)
    | Waiting(kid: Kid, start: Instant)
    | Rechecking(kid: Kid, start: Instant)
    | Cleared(kid: Kid, start: Instant, owed: bool)
    | Fetching(kid: Kid, start: Instant, owed: bool)
    | Fetched(kid: Kid, start: Instant, owed: bool, doc: seq<Jwk>)
    | Returning(kid: Kid, start: Instant, found: Option<Jwk>)
    | Resolved(kid: Kid, start: Instant, jwk: Jwk)
  {
    predicate HoldsPermit() {
      !Started? && !Waiting? && !Resolved?
    }

    predicate PastGate() {
      Cleared? || Fetching? || Fetched?
    }
  }

  datatype Event =
    | FetchStarted(at: Instant, kid: Kid, owed: bool)
    | RefreshCompleted(at: Instant, task: TaskId, owed: bool, doc: seq<Jwk>)
    | Evicted(at: Instant, kid: Kid, reason: EvictionReason)

  datatype System = System(
    clock: Instant,
    cache: Cache,
    permit: Option<TaskId>,
    spawned: nat,
    tasks: map<TaskId, Phase>,
    log: seq<Event>)

  datatype Decision = Hit(jwk: Jwk) | Deny | Fetch(owed: bool)

  /** The fast path, judged at the instant the call captured. */
  function FastPath(c: Cache, kid: Kid, start: Instant): Option<Jwk> {
    if c.IsFresh(start) && kid in c.keys then Some(c.keys[kid]) else None
  }

  /** The re-check under the permit: freshness is judged now, the cooldown from the captured instant. */
  function Recheck(c: Cache, kid: Kid, start: Instant, now: Instant, backoff: nat): Decision {
    if c.IsFresh(now) && kid in c.keys then Hit(c.keys[kid])
    else if c.IsFresh(now) && kid !in c.refreshOwed && c.WithinCooldown(start, backoff) then Deny
    else Fetch(kid in c.refreshOwed)
  }

  function Lookup(c: Cache, kid: Kid): Option<Jwk> {
    if kid in c.keys then Some(c.keys[kid]) else None
  }

  datatype Step =
    | Tick(elapsed: nat)
    | Begin(kid: Kid)
    | FastRead(t: TaskId)
    | Acquire(t: TaskId)
    | RecheckCache(t: TaskId)
    | StartFetch(t: TaskId)
    | FetchFails(t: TaskId)
    | FetchReturns(t: TaskId, doc: seq<Jwk>)
    | Replace(t: TaskId)
    | Return(t: TaskId)
    | Conclude(t: TaskId)
    | Mismatch(t: TaskId)
    | EvictUnknown(kid: Kid)
    | Cancel(t: TaskId)

  function Init(cfg: Config): System {
    System(0, EmptyCache(cfg.ttl), None, 0, map[], [])
  }

  function Goto(s: System, t: TaskId, p: Phase): System {
    s.(tasks := s.tasks[t := p])
  }

  function Finish(s: System, t: TaskId): System {
    s.(tasks := s.tasks - {t}, permit := if s.permit == Some(t) then None else s.permit)
  }

  function Logged(s: System, e: Event): System {
    s.(log := s.log + [e])
  }

  ghost predicate NextStep(cfg: Config, s: System, step: Step, s': System) {
    match step
    case Tick(elapsed) =>
      s' == s.(clock := s.clock + elapsed)
    case Begin(kid) =>
      s' == Goto(s, s.spawned, Started(kid, s.clock)).(spawned := s.spawned + 1)
    case FastRead(t) =>
      && t in s.tasks && s.tasks[t].Started?
      && var p := s.tasks[t];
      && var found := FastPath(s.cache, p.kid, p.start);
      s' == Goto(s, t, if found.Some? then Resolved(p.kid, p.start, found.value) else Waiting(p.kid, p.start))
    case Acquire(t) =>
      && t in s.tasks && s.tasks[t].Waiting? && s.permit == None
      && s' == Goto(s, t, Rechecking(s.tasks[t].kid, s.tasks[t].start)).(permit := Some(t))
    case RecheckCache(t) =>
      && t in s.tasks && s.tasks[t].Rechecking?
      && var p := s.tasks[t];
      s' == Goto(s, t,
        match Recheck(s.cache, p.kid, p.start, s.clock, cfg.backoff)
        case Hit(jwk) => Returning(p.kid, p.start, Some(jwk))
        case Deny => Returning(p.kid, p.start, None)
        case Fetch(owed) => Cleared(p.kid, p.start, owed))
    case StartFetch(t) =>
      && t in s.tasks && s.tasks[t].Cleared?
      && var p := s.tasks[t];
      s' == Logged(Goto(s, t, Fetching(p.kid, p.start, p.owed)), FetchStarted(s.clock, p.kid, p.owed))
    case FetchFails(t) =>
      && t in s.tasks && s.tasks[t].Fetching?
      && s' == Goto(s, t, Returning(s.tasks[t].kid, s.tasks[t].start, None))
    case FetchReturns(t, doc) =>
      && t in s.tasks && s.tasks[t].Fetching?
      && s' == Goto(s, t, Fetched(s.tasks[t].kid, s.tasks[t].start, s.tasks[t].owed, doc))
    case Replace(t) =>
      && t in s.tasks && s.tasks[t].Fetched?
      && var p := s.tasks[t];
      && var c := Replaced(s.cache, p.doc, s.clock);
      s' == Logged(Goto(s, t, Returning(p.kid, p.start, Lookup(c, p.kid))).(cache := c),
                   RefreshCompleted(s.clock, t, p.owed, p.doc))
    case Return(t) =>
      && t in s.tasks && s.tasks[t].Returning?
      && var p := s.tasks[t];
      s' == if p.found.Some? then Goto(s, t, Resolved(p.kid, p.start, p.found.value)).(permit := None)
            else Finish(s, t)
    case Conclude(t) =>
      && t in s.tasks && s.tasks[t].Resolved?
      && s' == Finish(s, t)
    case Mismatch(t) =>
      && t in s.tasks && s.tasks[t].Resolved?
      && var kid := s.tasks[t].kid;
      if Throttled(s.cache, kid, SignatureMismatch, s.clock, cfg.backoff) then
        s' == Finish(s, t)
      else
        && Evicts(s.cache, kid, SignatureMismatch, s.clock, s'.cache)
        && s' == Logged(Finish(s, t), Evicted(s.clock, kid, SignatureMismatch)).(cache := s'.cache)
    case EvictUnknown(kid) =>
      && Evicts(s.cache, kid, KidNotInCache, s.clock, s'.cache)
      && s' == Logged(s, Evicted(s.clock, kid, KidNotInCache)).(cache := s'.cache)
    case Cancel(t) =>
      && t in s.tasks
      && s' == Finish(s, t)
  }

  ghost predicate Next(cfg: Config, s: System, s': System) {
    exists step :: NextStep(cfg, s, step, s')
  }

  ghost predicate IsRun(cfg: Config, run: seq<System>) {
    && run != []
    && run[0] == Init(cfg)
    && forall i :: 0 <= i < |run| - 1 ==> Next(cfg, run[i], run[i + 1])
  }

  ghost predicate Reachable(cfg: Config, s: System) {
    exists run :: IsRun(cfg, run) && run[|run| - 1] == s
  }

  // ----- Reading the log -----------------------------------------------------------------------

  function LastRefresh(log: seq<Event>): (r: Option<nat>)
    ensures r.Some? ==> r.value < |log| && log[r.value].RefreshCompleted?
    ensures forall i :: 0 <= i < |log| && log[i].RefreshCompleted? ==> r.Some? && i <= r.value
  {
    if log == [] then None
    else if log[|log| - 1].RefreshCompleted? then Some(|log| - 1)
    else LastRefresh(log[..|log| - 1])
  }

  function EvictedSince(log: seq<Event>): set<Kid> {
    if log == [] then {}
    else
      var before := log[..|log| - 1];
      match log[|log| - 1]
      case FetchStarted(_, _, _) => EvictedSince(before)
      case RefreshCompleted(_, _, _, _) => {}
      case Evicted(_, kid, _) => EvictedSince(before) + {kid}
  }

  /** Entry `i` evicts the kid, and no refresh follows it. */
  ghost predicate EvictedAt(log: seq<Event>, kid: Kid, i: nat) {
    i < |log| && log[i].Evicted? && log[i].kid == kid && forall j :: i < j < |log| ==> !log[j].RefreshCompleted?
  }

  lemma EvictedAtFront(log: seq<Event>, kid: Kid, i: nat)
    requires log != [] && i < |log| - 1
    ensures EvictedAt(log, kid, i) <==> EvictedAt(log[..|log| - 1], kid, i) && !log[|log| - 1].RefreshCompleted?
  {
    var front := log[..|log| - 1];
    assert forall j :: 0 <= j < |front| ==> front[j] == log[j];
  }

  /** The kids evicted after the last refresh, said by position in the log. */
  lemma {:induction false} EvictedSinceMeaning(log: seq<Event>, kid: Kid)
    ensures kid in EvictedSince(log) <==> exists i: nat :: EvictedAt(log, kid, i)
  {
    if log != [] {
      var n := |log| - 1;
      EvictedSinceMeaning(log[..n], kid);
      if kid in EvictedSince(log) {
        if log[n].Evicted? && log[n].kid == kid {
          assert EvictedAt(log, kid, n);
        } else {
          var i: nat :| EvictedAt(log[..n], kid, i);
          EvictedAtFront(log, kid, i);
        }
      }
      if i: nat :| EvictedAt(log, kid, i) {
        if i < n {
          EvictedAtFront(log, kid, i);
        }
      }
    }
  }

  datatype Kind = OwedRefresh | FreeRefresh | Eviction

  predicate OfKind(e: Event, kind: Kind) {
    match kind
    case OwedRefresh => e.RefreshCompleted? && e.owed
    case FreeRefresh => e.RefreshCompleted? && !e.owed
    case Eviction => e.Evicted?
  }

  /** How many events of one kind the log holds. */
  function Tally(log: seq<Event>, kind: Kind): nat {
    if log == [] then 0
    else Tally(log[..|log| - 1], kind) + if OfKind(log[|log| - 1], kind) then 1 else 0
  }

  lemma LogGrows(log: seq<Event>, e: Event)
    ensures (log + [e])[..|log + [e]| - 1] == log
  {
  }

  // ----- Shape of reachable states --------------------------------------------------------------

  ghost predicate Shape(cfg: Config, s: System) {
    && s.cache.ttl == cfg.ttl
    && WithinBounds(s.cache)
    && (forall t :: t in s.tasks ==> t < s.spawned && s.tasks[t].start <= s.clock)
    && (forall t :: t in s.tasks ==> (s.tasks[t].HoldsPermit() <==> s.permit == Some(t)))
    && (s.permit.Some? ==> s.permit.value in s.tasks)
    && LogInOrder(s.log, s.clock)
  }

  ghost predicate LogInOrder(log: seq<Event>, clock: Instant) {
    && (forall i :: 0 <= i < |log| ==> log[i].at <= clock)
    && (forall i, j :: 0 <= i < j < |log| ==> log[i].at <= log[j].at)
  }

  lemma OrderKept(log: seq<Event>, clock: Instant, log': seq<Event>, clock': Instant)
    requires LogInOrder(log, clock) && clock <= clock' && log <= log'
    requires log' == log || (|log'| == |log| + 1 && log'[|log|].at == clock)
    ensures LogInOrder(log', clock')
  {
  }

  /** Time and the log only grow, by at most one event stamped now. */
  lemma LogKept(cfg: Config, s: System, step: Step, s': System)
    requires NextStep(cfg, s, step, s')
    ensures s.clock <= s'.clock && s.log <= s'.log
    ensures s'.log == s.log || (|s'.log| == |s.log| + 1 && s'.log[|s.log|].at == s.clock)
  {
  }

  lemma BoundsKept(cfg: Config, s: System, step: Step, s': System)
    requires WithinBounds(s.cache) && NextStep(cfg, s, step, s')
    ensures WithinBounds(s'.cache) && s'.cache.ttl == s.cache.ttl
  {
    if step.Mismatch? && !Throttled(s.cache, s.tasks[step.t].kid, SignatureMismatch, s.clock, cfg.backoff) {
      EvictsStaysBounded(s.cache, s.tasks[step.t].kid, SignatureMismatch, s.clock, s'.cache);
    }
    if step.EvictUnknown? {
      EvictsStaysBounded(s.cache, step.kid, KidNotInCache, s.clock, s'.cache);
    }
  }

  lemma StartsKept(cfg: Config, s: System, step: Step, s': System)
    requires NextStep(cfg, s, step, s')
    requires forall t :: t in s.tasks ==> t < s.spawned && s.tasks[t].start <= s.clock
    ensures forall t :: t in s'.tasks ==> t < s'.spawned && s'.tasks[t].start <= s'.clock
  {
  }

  lemma PermitKept(cfg: Config, s: System, step: Step, s': System)
    requires NextStep(cfg, s, step, s')
    requires forall t :: t in s.tasks ==> t < s.spawned && (s.tasks[t].HoldsPermit() <==> s.permit == Some(t))
    requires s.permit.Some? ==> s.permit.value in s.tasks
    ensures forall t :: t in s'.tasks ==> (s'.tasks[t].HoldsPermit() <==> s'.permit == Some(t))
    ensures s'.permit.Some? ==> s'.permit.value in s'.tasks
  {
  }

  lemma ShapeKept(cfg: Config, s: System, step: Step, s': System)
    requires Shape(cfg, s) && NextStep(cfg, s, step, s')
    ensures Shape(cfg, s')
  {
    LogKept(cfg, s, step, s');
    OrderKept(s.log, s.clock, s'.log, s'.clock);
    BoundsKept(cfg, s, step, s');
    StartsKept(cfg, s, step, s');
    PermitKept(cfg, s, step, s');
  }

  /** The keys that remain, and the freshness they have. */
  ghost predicate KeysRepresent(c: Cache, log: seq<Event>) {
    && c.fetchedAt == c.lastRefreshCompleted
    && match LastRefresh(log)
       case None => c.keys == map[] && c.fetchedAt == None
       case Some(i) => c.keys == DocumentKeys(log[i].doc) - EvictedSince(log) && c.fetchedAt == Some(log[i].at)
  }

  ghost predicate OwedRepresents(owed: set<Kid>, evicted: set<Kid>) {
    owed <= evicted && (owed == evicted || |owed| == EVICTION_MAP_MAX_ENTRIES)
  }

  /** What the cache holds, in terms of the log alone. */
  ghost predicate Represents(c: Cache, log: seq<Event>) {
    KeysRepresent(c, log) && OwedRepresents(c.refreshOwed, EvictedSince(log))
  }

  lemma EvictionLogged(log: seq<Event>, e: Event)
    requires e.Evicted?
    ensures EvictedSince(log + [e]) == EvictedSince(log) + {e.kid} && LastRefresh(log + [e]) == LastRefresh(log)
    ensures forall i :: 0 <= i < |log| ==> (log + [e])[i] == log[i]
  {
    LogGrows(log, e);
  }

  lemma EvictKeepsKeys(c: Cache, log: seq<Event>, e: Event, c': Cache)
    requires KeysRepresent(c, log) && e.Evicted? && c'.keys == c.keys - {e.kid}
    requires c'.fetchedAt == c.fetchedAt && c'.lastRefreshCompleted == c.lastRefreshCompleted
    ensures KeysRepresent(c', log + [e])
  {
    EvictionLogged(log, e);
    var since, last := EvictedSince(log), LastRefresh(log);
    if last.Some? {
      var keys := DocumentKeys(log[last.value].doc);
      assert keys - since - {e.kid} == keys - (since + {e.kid});
    }
  }

  lemma MarkKeepsOwed(owed: set<Kid>, evicted: set<Kid>, kid: Kid)
    requires OwedRepresents(owed, evicted) && |owed| <= EVICTION_MAP_MAX_ENTRIES
    ensures OwedRepresents(Marked(owed, kid), evicted + {kid})
  {
    AddedSize(owed, kid);
  }

  lemma EvictKeepsRepresents(c: Cache, log: seq<Event>, kid: Kid, reason: EvictionReason, now: Instant, c': Cache)
    requires WithinBounds(c)
    requires Represents(c, log) && Evicts(c, kid, reason, now, c')
    ensures Represents(c', log + [Evicted(now, kid, reason)])
  {
    EvictKeepsKeys(c, log, Evicted(now, kid, reason), c');
    MarkKeepsOwed(c.refreshOwed, EvictedSince(log), kid);
    EvictionLogged(log, Evicted(now, kid, reason));
  }

  lemma StartKeepsRepresents(c: Cache, log: seq<Event>, e: Event)
    requires Represents(c, log) && e.FetchStarted?
    ensures Represents(c, log + [e])
  {
    LogGrows(log, e);
  }

  lemma ReplaceRepresents(c: Cache, log: seq<Event>, e: Event)
    requires e.RefreshCompleted?
    ensures Represents(Replaced(c, e.doc, e.at), log + [e])
  {
    LogGrows(log, e);
    assert DocumentKeys(e.doc) - {} == DocumentKeys(e.doc);
  }

  /** Steps that log nothing leave the cache alone. */
  lemma UnloggedStepsKeepCache(cfg: Config, s: System, step: Step, s': System)
    requires NextStep(cfg, s, step, s') && !step.StartFetch? && !step.Replace? && !step.EvictUnknown?
    requires step.Mismatch? ==> Throttled(s.cache, s.tasks[step.t].kid, SignatureMismatch, s.clock, cfg.backoff)
    ensures s'.cache == s.cache && s'.log == s.log
  {
  }

  lemma RepresentsKept(cfg: Config, s: System, step: Step, s': System)
    requires Shape(cfg, s) && Represents(s.cache, s.log) && NextStep(cfg, s, step, s')
    ensures Represents(s'.cache, s'.log)
  {
    if step.StartFetch? {
      StartKeepsRepresents(s.cache, s.log, FetchStarted(s.clock, s.tasks[step.t].kid, s.tasks[step.t].owed));
    } else if step.Replace? {
      ReplaceRepresents(s.cache, s.log, RefreshCompleted(s.clock, step.t, s.tasks[step.t].owed, s.tasks[step.t].doc));
    } else if step.EvictUnknown? {
      EvictKeepsRepresents(s.cache, s.log, step.kid, KidNotInCache, s.clock, s'.cache);
    } else if step.Mismatch? && !Throttled(s.cache, s.tasks[step.t].kid, SignatureMismatch, s.clock, cfg.backoff) {
      EvictKeepsRepresents(s.cache, s.log, s.tasks[step.t].kid, SignatureMismatch, s.clock, s'.cache);
    } else {
      UnloggedStepsKeepCache(cfg, s, step, s');
    }
  }
}

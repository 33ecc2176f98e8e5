/** The per-kid eviction backoff over whole runs, although the timestamp map forgets its oldest entries. */
module JwksSpacing {
  import opened Common
  import opened Jwks
  import opened JwksProtocol

  predicate IsMismatch(e: Event) {
    e.Evicted? && e.reason == SignatureMismatch
  }

  /** The kids evicted for a signature mismatch in the `length` instants from `from` on. */
  ghost function EvictedWithin(log: seq<Event>, from: Instant, length: nat): set<Kid> {
    set i | 0 <= i < |log| && IsMismatch(log[i]) && from <= log[i].at < from + length :: log[i].kid
  }

  /** No window of one backoff sees more distinct kids evicted than the timestamp map can remember. */
  ghost predicate WindowsFit(cfg: Config, log: seq<Event>) {
    forall from: Instant :: |EvictedWithin(log, from, cfg.backoff)| <= EVICTION_MAP_MAX_ENTRIES
  }

  /** Two effective mismatch evictions of one kid are at least the backoff apart. */
  ghost predicate Spaced(cfg: Config, log: seq<Event>) {
    forall i, j :: 0 <= i < j < |log| && IsMismatch(log[i]) && IsMismatch(log[j]) && log[i].kid == log[j].kid
      ==> log[j].at >= log[i].at + cfg.backoff
  }

  /** The kids other than `kid` evicted for a mismatch at `from` or later. */
  ghost function Others(log: seq<Event>, kid: Kid, from: Instant): set<Kid> {
    set i | 0 <= i < |log| && IsMismatch(log[i]) && log[i].kid != kid && from <= log[i].at :: log[i].kid
  }

  // ----- What the timestamp map remembers -------------------------------------------------------

  /** A timestamp is the latest mismatch eviction of its kid. */
  ghost predicate TimestampsLatest(s: System) {
    && (forall k :: k in s.cache.evictions ==> Evicted(s.cache.evictions[k], k, SignatureMismatch) in s.log)
    && (forall i :: 0 <= i < |s.log| && IsMismatch(s.log[i]) && s.log[i].kid in s.cache.evictions
          ==> s.log[i].at <= s.cache.evictions[s.log[i].kid])
  }

  /** A kid is forgotten only after a map-full of others was evicted no earlier than it. */
  ghost predicate ForgottenForOthers(s: System) {
    forall i :: 0 <= i < |s.log| && IsMismatch(s.log[i]) && s.log[i].kid !in s.cache.evictions
      ==> |Others(s.log, s.log[i].kid, s.log[i].at)| >= EVICTION_MAP_MAX_ENTRIES
  }

  /** Whatever was evicted after a remembered kid is remembered too. */
  ghost predicate NewerRemembered(s: System) {
    forall k, i :: k in s.cache.evictions && 0 <= i < |s.log| && IsMismatch(s.log[i]) && s.cache.evictions[k] < s.log[i].at
      ==> s.log[i].kid in s.cache.evictions
  }

  ghost predicate Memory(s: System) {
    TimestampsLatest(s) && ForgottenForOthers(s) && NewerRemembered(s)
  }

  lemma OthersGrow(log: seq<Event>, log': seq<Event>, kid: Kid, from: Instant)
    requires log <= log'
    ensures Others(log, kid, from) <= Others(log', kid, from)
    ensures |Others(log, kid, from)| <= |Others(log', kid, from)|
  {
    assert forall i :: 0 <= i < |log| ==> log[i] == log'[i];
    SubsetSize(Others(log, kid, from), Others(log', kid, from));
  }

  /** Dropping the oldest entry of a full map leaves a map-full of other kids evicted no earlier. */
  lemma DroppedForOthers(cfg: Config, s: System, kid: Kid, victim: Kid)
    requires Shape(cfg, s) && TimestampsLatest(s)
    requires kid !in s.cache.evictions && |s.cache.evictions.Keys| >= EVICTION_MAP_MAX_ENTRIES
    requires Oldest(s.cache.evictions, victim)
    ensures |Others(s.log + [Evicted(s.clock, kid, SignatureMismatch)], victim, s.cache.evictions[victim])|
            >= EVICTION_MAP_MAX_ENTRIES
  {
    var from := s.cache.evictions[victim];
    var log' := s.log + [Evicted(s.clock, kid, SignatureMismatch)];
    var crowd := s.cache.evictions.Keys - {victim} + {kid};
    forall k | k in crowd ensures k in Others(log', victim, from) {
      OtherRemembered(cfg, s, kid, victim, k);
    }
    RemovedSize(s.cache.evictions, victim);
    assert (s.cache.evictions - {victim}).Keys == s.cache.evictions.Keys - {victim};
    AddedSize(s.cache.evictions.Keys - {victim}, kid);
    SubsetSize(crowd, Others(log', victim, from));
  }

  lemma OtherRemembered(cfg: Config, s: System, kid: Kid, victim: Kid, k: Kid)
    requires Shape(cfg, s) && TimestampsLatest(s)
    requires Oldest(s.cache.evictions, victim) && k != victim
    requires k in s.cache.evictions || k == kid
    ensures k in Others(s.log + [Evicted(s.clock, kid, SignatureMismatch)], victim, s.cache.evictions[victim])
  {
    var log' := s.log + [Evicted(s.clock, kid, SignatureMismatch)];
    if k in s.cache.evictions {
      var i :| 0 <= i < |s.log| && s.log[i] == Evicted(s.cache.evictions[k], k, SignatureMismatch);
      assert log'[i] == s.log[i];
    } else {
      var i :| 0 <= i < |s.log| && s.log[i] == Evicted(s.cache.evictions[victim], victim, SignatureMismatch);
      assert s.log[i].at <= s.clock;
      assert log'[|s.log|].kid == kid;
    }
  }

  lemma MismatchKeepsLogged(s: System, kid: Kid, s': System, k: Kid)
    requires TimestampsLatest(s) && WithinBounds(s.cache)
    requires Recorded(s.cache.evictions, kid, s.clock, s'.cache.evictions)
    requires s'.log == s.log + [Evicted(s.clock, kid, SignatureMismatch)]
    requires k in s'.cache.evictions
    ensures Evicted(s'.cache.evictions[k], k, SignatureMismatch) in s'.log
  {
    RecordedStaysBounded(s.cache.evictions, kid, s.clock, s'.cache.evictions);
    if k != kid {
      assert Evicted(s.cache.evictions[k], k, SignatureMismatch) in s.log;
    }
  }

  lemma MismatchKeepsLater(s: System, kid: Kid, s': System, i: nat)
    requires TimestampsLatest(s) && WithinBounds(s.cache) && LogInOrder(s.log, s.clock)
    requires Recorded(s.cache.evictions, kid, s.clock, s'.cache.evictions)
    requires s'.log == s.log + [Evicted(s.clock, kid, SignatureMismatch)]
    requires i < |s'.log| && IsMismatch(s'.log[i]) && s'.log[i].kid in s'.cache.evictions
    ensures s'.log[i].at <= s'.cache.evictions[s'.log[i].kid]
  {
    RecordedStaysBounded(s.cache.evictions, kid, s.clock, s'.cache.evictions);
    if i < |s.log| {
      assert s'.log[i] == s.log[i];
    }
  }

  lemma MismatchKeepsLatest(cfg: Config, s: System, kid: Kid, s': System)
    requires Shape(cfg, s) && TimestampsLatest(s)
    requires Recorded(s.cache.evictions, kid, s.clock, s'.cache.evictions)
    requires s'.log == s.log + [Evicted(s.clock, kid, SignatureMismatch)]
    ensures TimestampsLatest(s')
  {
    forall k | k in s'.cache.evictions ensures Evicted(s'.cache.evictions[k], k, SignatureMismatch) in s'.log {
      MismatchKeepsLogged(s, kid, s', k);
    }
    forall i | 0 <= i < |s'.log| && IsMismatch(s'.log[i]) && s'.log[i].kid in s'.cache.evictions
      ensures s'.log[i].at <= s'.cache.evictions[s'.log[i].kid]
    {
      MismatchKeepsLater(s, kid, s', i);
    }
  }

  lemma MismatchKeepsForgotten(cfg: Config, s: System, kid: Kid, s': System)
    requires Shape(cfg, s) && TimestampsLatest(s) && ForgottenForOthers(s)
    requires Recorded(s.cache.evictions, kid, s.clock, s'.cache.evictions)
    requires s'.log == s.log + [Evicted(s.clock, kid, SignatureMismatch)]
    ensures ForgottenForOthers(s')
  {
    forall i | 0 <= i < |s'.log| && IsMismatch(s'.log[i]) && s'.log[i].kid !in s'.cache.evictions
      ensures |Others(s'.log, s'.log[i].kid, s'.log[i].at)| >= EVICTION_MAP_MAX_ENTRIES
    {
      var k, at := s.log[i].kid, s.log[i].at;
      OthersGrow(s.log, s'.log, k, at);
      if k in s.cache.evictions {
        DroppedForOthers(cfg, s, kid, k);
        OthersFromEarlier(s'.log, k, at, s.cache.evictions[k]);
      }
    }
  }

  lemma OthersFromEarlier(log: seq<Event>, kid: Kid, from: Instant, later: Instant)
    requires from <= later
    ensures |Others(log, kid, later)| <= |Others(log, kid, from)|
  {
    SubsetSize(Others(log, kid, later), Others(log, kid, from));
  }

  /** The dropped entry is not newer than anything the map keeps. */
  lemma KeptIfNewer(s: System, kid: Kid, s': System, k: Kid, i: nat)
    requires TimestampsLatest(s) && Recorded(s.cache.evictions, kid, s.clock, s'.cache.evictions)
    requires k in s.cache.evictions && i < |s.log| && IsMismatch(s.log[i])
    requires s.log[i].kid in s.cache.evictions && s.cache.evictions[k] < s.log[i].at
    ensures s.log[i].kid in s'.cache.evictions
  {
    assert s.log[i].at <= s.cache.evictions[s.log[i].kid];
  }

  lemma MismatchKeepsNewer(cfg: Config, s: System, kid: Kid, s': System)
    requires Shape(cfg, s) && TimestampsLatest(s) && NewerRemembered(s)
    requires Recorded(s.cache.evictions, kid, s.clock, s'.cache.evictions)
    requires s'.log == s.log + [Evicted(s.clock, kid, SignatureMismatch)]
    ensures NewerRemembered(s')
  {
    var after := s'.cache.evictions;
    forall k, i | k in after && 0 <= i < |s'.log| && IsMismatch(s'.log[i]) && after[k] < s'.log[i].at
      ensures s'.log[i].kid in after
    {
      NewerKeptAt(s, kid, s', k, i);
    }
  }

  lemma NewerKeptAt(s: System, kid: Kid, s': System, k: Kid, i: nat)
    requires WithinBounds(s.cache) && LogInOrder(s.log, s.clock) && TimestampsLatest(s) && NewerRemembered(s)
    requires Recorded(s.cache.evictions, kid, s.clock, s'.cache.evictions)
    requires s'.log == s.log + [Evicted(s.clock, kid, SignatureMismatch)]
    requires k in s'.cache.evictions && i < |s'.log| && IsMismatch(s'.log[i]) && s'.cache.evictions[k] < s'.log[i].at
    ensures s'.log[i].kid in s'.cache.evictions
  {
    RecordedStaysBounded(s.cache.evictions, kid, s.clock, s'.cache.evictions);
    if i < |s.log| {
      assert s'.log[i] == s.log[i] && s.log[i].at <= s.clock;
      assert k != kid;
      KeptIfNewer(s, kid, s', k, i);
    }
  }

  lemma MemoryKept(cfg: Config, s: System, step: Step, s': System)
    requires Shape(cfg, s) && Memory(s) && NextStep(cfg, s, step, s')
    ensures Memory(s')
  {
    if step.Mismatch? && !Throttled(s.cache, s.tasks[step.t].kid, SignatureMismatch, s.clock, cfg.backoff) {
      var kid := s.tasks[step.t].kid;
      MismatchKeepsLatest(cfg, s, kid, s');
      MismatchKeepsForgotten(cfg, s, kid, s');
      MismatchKeepsNewer(cfg, s, kid, s');
    } else {
      assert s'.cache.evictions == s.cache.evictions;
      assert forall i :: |s.log| <= i < |s'.log| ==> !IsMismatch(s'.log[i]);
      QuietKeepsMemory(s, s');
    }
  }

  lemma QuietKeepsMemory(s: System, s': System)
    requires Memory(s) && s.log <= s'.log && s'.cache.evictions == s.cache.evictions
    requires forall i :: |s.log| <= i < |s'.log| ==> !IsMismatch(s'.log[i])
    ensures Memory(s')
  {
    forall i | 0 <= i < |s'.log| && IsMismatch(s'.log[i]) && s'.log[i].kid !in s'.cache.evictions
      ensures |Others(s'.log, s'.log[i].kid, s'.log[i].at)| >= EVICTION_MAP_MAX_ENTRIES
    {
      OthersGrow(s.log, s'.log, s.log[i].kid, s.log[i].at);
    }
  }

  lemma {:induction false} RunMemory(cfg: Config, run: seq<System>, n: nat)
    requires IsRun(cfg, run) && n < |run|
    ensures Shape(cfg, run[n]) && Memory(run[n])
  {
    if n > 0 {
      RunMemory(cfg, run, n - 1);
      assert Next(cfg, run[n - 1], run[n - 1 + 1]);
      var step :| NextStep(cfg, run[n - 1], step, run[n]);
      ShapeKept(cfg, run[n - 1], step, run[n]);
      MemoryKept(cfg, run[n - 1], step, run[n]);
    }
  }

  // ----- When the backoff holds -----------------------------------------------------------------

  /** Entry `i` is the last mismatch eviction of its kid. */
  ghost predicate LatestOf(log: seq<Event>, i: nat) {
    && i < |log| && IsMismatch(log[i])
    && forall j :: i < j < |log| && IsMismatch(log[j]) ==> log[j].kid != log[i].kid
  }

  /** No other kid was evicted at the very same instant. */
  ghost predicate Untied(log: seq<Event>, i: nat)
    requires i < |log| && IsMismatch(log[i])
  {
    forall j :: 0 <= j < |log| && IsMismatch(log[j]) && log[j].kid != log[i].kid ==> log[j].at != log[i].at
  }

  /**
   Within the backoff of its last eviction, a kid's next mismatch is throttled if fewer kids than the
   map can hold were evicted no earlier, and only if fewer were evicted later. Which of several kids
   evicted at one instant the map gives up is not determined; where there are none, the two counts are
   one and decide it exactly. The backoff alone does not.
   */
  lemma ThrottledExactlyWhen(cfg: Config, s: System, i: nat)
    requires Reachable(cfg, s) && LatestOf(s.log, i)
    requires s.clock < s.log[i].at + cfg.backoff
    ensures |Others(s.log, s.log[i].kid, s.log[i].at)| < EVICTION_MAP_MAX_ENTRIES
            ==> Throttled(s.cache, s.log[i].kid, SignatureMismatch, s.clock, cfg.backoff)
    ensures Throttled(s.cache, s.log[i].kid, SignatureMismatch, s.clock, cfg.backoff)
            ==> |Others(s.log, s.log[i].kid, s.log[i].at + 1)| < EVICTION_MAP_MAX_ENTRIES
    ensures Untied(s.log, i)
            ==> (Throttled(s.cache, s.log[i].kid, SignatureMismatch, s.clock, cfg.backoff)
                 <==> |Others(s.log, s.log[i].kid, s.log[i].at)| < EVICTION_MAP_MAX_ENTRIES)
  {
    ReachableRemembers(cfg, s, i);
    if Untied(s.log, i) {
      UntiedCounts(s.log, i);
    }
  }

  lemma ReachableRemembers(cfg: Config, s: System, i: nat)
    requires Reachable(cfg, s) && LatestOf(s.log, i) && s.clock < s.log[i].at + cfg.backoff
    ensures if Throttled(s.cache, s.log[i].kid, SignatureMismatch, s.clock, cfg.backoff)
            then |Others(s.log, s.log[i].kid, s.log[i].at + 1)| < EVICTION_MAP_MAX_ENTRIES
            else |Others(s.log, s.log[i].kid, s.log[i].at)| >= EVICTION_MAP_MAX_ENTRIES
  {
    ReachableMemory(cfg, s);
    ThrottledIfRemembered(cfg, s, i);
  }

  lemma ReachableMemory(cfg: Config, s: System)
    requires Reachable(cfg, s)
    ensures Shape(cfg, s) && Memory(s)
  {
    var run :| IsRun(cfg, run) && run[|run| - 1] == s;
    RunMemory(cfg, run, |run| - 1);
  }

  lemma ThrottledIfRemembered(cfg: Config, s: System, i: nat)
    requires Shape(cfg, s) && Memory(s) && LatestOf(s.log, i) && s.clock < s.log[i].at + cfg.backoff
    ensures Throttled(s.cache, s.log[i].kid, SignatureMismatch, s.clock, cfg.backoff) <==> s.log[i].kid in s.cache.evictions
    ensures s.log[i].kid in s.cache.evictions ==> |Others(s.log, s.log[i].kid, s.log[i].at + 1)| < EVICTION_MAP_MAX_ENTRIES
    ensures s.log[i].kid !in s.cache.evictions ==> |Others(s.log, s.log[i].kid, s.log[i].at)| >= EVICTION_MAP_MAX_ENTRIES
  {
    if s.log[i].kid in s.cache.evictions {
      RememberedAmongFew(cfg, s, i);
    }
  }

  lemma UntiedCounts(log: seq<Event>, i: nat)
    requires i < |log| && IsMismatch(log[i]) && Untied(log, i)
    ensures Others(log, log[i].kid, log[i].at) == Others(log, log[i].kid, log[i].at + 1)
  {
  }

  /** A kid still remembered was followed by fewer kids than the map holds. */
  lemma RememberedAmongFew(cfg: Config, s: System, i: nat)
    requires Shape(cfg, s) && Memory(s) && LatestOf(s.log, i)
    requires s.log[i].kid in s.cache.evictions
    ensures s.cache.evictions[s.log[i].kid] == s.log[i].at
    ensures |Others(s.log, s.log[i].kid, s.log[i].at + 1)| < EVICTION_MAP_MAX_ENTRIES
  {
    LatestIsTimestamp(cfg, s, i);
    var k := s.log[i].kid;
    var others := Others(s.log, k, s.log[i].at + 1);
    assert others <= s.cache.evictions.Keys - {k};
    SubsetSize(others, s.cache.evictions.Keys - {k});
    RemovedSize(s.cache.evictions, k);
    assert (s.cache.evictions - {k}).Keys == s.cache.evictions.Keys - {k};
  }

  lemma LatestIsTimestamp(cfg: Config, s: System, i: nat)
    requires Shape(cfg, s) && TimestampsLatest(s) && LatestOf(s.log, i) && s.log[i].kid in s.cache.evictions
    ensures s.cache.evictions[s.log[i].kid] == s.log[i].at
  {
    var k := s.log[i].kid;
    var j :| 0 <= j < |s.log| && s.log[j] == Evicted(s.cache.evictions[k], k, SignatureMismatch);
    assert j <= i;
  }

  lemma OthersWithinWindow(log: seq<Event>, kid: Kid, i: nat, length: nat)
    requires i < |log| && IsMismatch(log[i]) && log[i].kid == kid
    requires forall j :: 0 <= j < |log| ==> log[j].at < log[i].at + length
    ensures |Others(log, kid, log[i].at)| < |EvictedWithin(log, log[i].at, length)|
  {
    var others, window := Others(log, kid, log[i].at), EvictedWithin(log, log[i].at, length);
    assert others + {kid} <= window;
    AddedSize(others, kid);
    SubsetSize(others + {kid}, window);
  }

  /** If every window of one backoff fits the map, an unthrottled mismatch is far enough from the last. */
  lemma MismatchSpaced(cfg: Config, s: System, kid: Kid)
    requires Shape(cfg, s) && Memory(s) && Spaced(cfg, s.log)
    requires !Throttled(s.cache, kid, SignatureMismatch, s.clock, cfg.backoff)
    requires WindowsFit(cfg, s.log)
    ensures Spaced(cfg, s.log + [Evicted(s.clock, kid, SignatureMismatch)])
  {
    forall i | 0 <= i < |s.log| && IsMismatch(s.log[i]) && s.log[i].kid == kid
      ensures s.clock >= s.log[i].at + cfg.backoff
    {
      if kid !in s.cache.evictions && s.clock < s.log[i].at + cfg.backoff {
        OthersWithinWindow(s.log, kid, i, cfg.backoff);
        assert false;
      }
    }
  }

  lemma WindowsFitPrefix(cfg: Config, log: seq<Event>, log': seq<Event>)
    requires log <= log' && WindowsFit(cfg, log')
    ensures WindowsFit(cfg, log)
  {
    forall from: Instant ensures |EvictedWithin(log, from, cfg.backoff)| <= EVICTION_MAP_MAX_ENTRIES {
      assert forall i :: 0 <= i < |log| ==> log[i] == log'[i];
      SubsetSize(EvictedWithin(log, from, cfg.backoff), EvictedWithin(log', from, cfg.backoff));
    }
  }

  lemma SpacedKept(cfg: Config, s: System, step: Step, s': System)
    requires Shape(cfg, s) && Memory(s) && Spaced(cfg, s.log) && WindowsFit(cfg, s.log) && NextStep(cfg, s, step, s')
    ensures Spaced(cfg, s'.log)
  {
    if step.Mismatch? && !Throttled(s.cache, s.tasks[step.t].kid, SignatureMismatch, s.clock, cfg.backoff) {
      MismatchSpaced(cfg, s, s.tasks[step.t].kid);
    } else {
      assert forall i :: |s.log| <= i < |s'.log| ==> !IsMismatch(s'.log[i]);
    }
  }

  lemma {:induction false} RunSpaced(cfg: Config, run: seq<System>, n: nat)
    requires IsRun(cfg, run) && n < |run| && WindowsFit(cfg, run[n].log)
    ensures Spaced(cfg, run[n].log)
  {
    if n > 0 {
      var s, s' := run[n - 1], run[n];
      assert Next(cfg, run[n - 1], run[n - 1 + 1]);
      var step :| NextStep(cfg, s, step, s');
      LogKept(cfg, s, step, s');
      WindowsFitPrefix(cfg, s.log, s'.log);
      RunSpaced(cfg, run, n - 1);
      RunMemory(cfg, run, n - 1);
      SpacedKept(cfg, s, step, s');
    }
  }

  /** If no window of one backoff evicts more kids than the map remembers, the backoff holds for ever. */
  lemma EvictionsSpaced(cfg: Config, s: System)
    requires Reachable(cfg, s) && WindowsFit(cfg, s.log)
    ensures Spaced(cfg, s.log)
  {
    var run :| IsRun(cfg, run) && run[|run| - 1] == s;
    RunSpaced(cfg, run, |run| - 1);
  }
}

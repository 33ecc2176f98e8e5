/**
 The documented promise that a kid's second mismatch within the backoff is throttled does not hold
 by itself: one kid more than the timestamp map remembers is enough to break it.
 */
module JwksForgotten {
  import opened Common
  import opened Jwks
  import opened JwksProtocol
  import opened JwksSpacing
  import opened JwksRotation

  const SETTING := Config(300, 10)

  function Name(i: nat): (kid: Kid)
    ensures |kid| == i
  {
    if i == 0 then "" else Name(i - 1) + "k"
  }

  ghost function Names(n: nat): (kids: set<Kid>)
    ensures forall i: nat :: Name(i) in kids <==> i < n
    ensures |kids| == n
  {
    if n == 0 then {} else Names(n - 1) + {Name(n - 1)}
  }

  function Document(n: nat): (doc: seq<Jwk>)
    ensures |doc| == n && forall i :: 0 <= i < n ==> doc[i] == Jwk(Some(Name(i)), i)
  {
    if n == 0 then [] else Document(n - 1) + [Jwk(Some(Name(n - 1)), n - 1)]
  }

  const CROWD: nat := EVICTION_MAP_MAX_ENTRIES + 1

  lemma Listed(doc: seq<Jwk>, i: nat)
    requires i < |doc| && doc == Document(|doc|)
    ensures Name(i) in DocumentKeys(doc)
  {
    DocumentKeysAreLastEntries(doc, Name(i));
    assert LastEntryFor(doc, Name(i), i);
  }

  /** Kid 0 was evicted at instant 0 and kids 1 to `n` at instant 1; the rest are still cached and fresh. */
  ghost predicate Stage(s: System, n: nat) {
    && Reachable(SETTING, s) && Idle(s) && s.clock == 1
    && s.cache.fetchedAt == Some(0) && s.cache.ttl == SETTING.ttl
    && (forall i: nat :: n < i < CROWD ==> Name(i) in s.cache.keys)
    && s.cache.evictions.Keys == Names(n + 1)
    && (forall i: nat :: i <= n ==> s.cache.evictions[Name(i)] == if i == 0 then 0 else 1)
    && Name(0) in s.cache.refreshOwed
    && Evicted(0, Name(0), SignatureMismatch) in s.log
  }

  /** Resolve a cached kid and let its token mismatch, with the timestamps recorded as `after`. */
  lemma EvictCached(s: System, kid: Kid, after: map<Kid, Instant>) returns (s': System)
    requires Reachable(SETTING, s) && Idle(s) && s.cache.IsFresh(s.clock) && kid in s.cache.keys
    requires kid !in s.cache.evictions && Recorded(s.cache.evictions, kid, s.clock, after)
    ensures Reachable(SETTING, s') && Idle(s') && s'.clock == s.clock
    ensures s'.log == s.log + [Evicted(s.clock, kid, SignatureMismatch)]
    ensures s'.cache == s.cache.(keys := s.cache.keys - {kid}, refreshOwed := Marked(s.cache.refreshOwed, kid),
                                 evictions := after)
  {
    var s1 := FastIsARun(SETTING, s, kid);
    var c := s.cache.(keys := s.cache.keys - {kid}, refreshOwed := Marked(s.cache.refreshOwed, kid), evictions := after);
    s' := Logged(Finish(s1, s.spawned), Evicted(s.clock, kid, SignatureMismatch)).(cache := c);
    Extend(SETTING, s1, Mismatch(s.spawned), s');
  }

  lemma FetchFirst(s: System, kid: Kid, doc: seq<Jwk>) returns (s': System)
    requires Reachable(SETTING, s) && Idle(s)
    requires kid in DocumentKeys(doc)
    requires !s.cache.IsFresh(s.clock) || (kid !in s.cache.keys && kid in s.cache.refreshOwed)
    ensures Reachable(SETTING, s') && Idle(s') && s'.clock == s.clock && s.log <= s'.log
    ensures s'.cache == Replaced(s.cache, doc, s.clock)
  {
    var at := Timing(s.clock, s.clock, s.clock);
    var s1 := AloneIsARun(SETTING, s, kid, at, Some(doc));
    s' := Finish(s1, s.spawned);
    Extend(SETTING, s1, Conclude(s.spawned), s');
  }

  lemma InitReachable(cfg: Config)
    ensures Reachable(cfg, Init(cfg)) && Idle(Init(cfg))
  {
    var run := [Init(cfg)];
    assert IsRun(cfg, run) && run[|run| - 1] == Init(cfg);
  }

  lemma Opened(doc: seq<Jwk>) returns (s: System)
    requires Name(0) in DocumentKeys(doc)
    ensures Reachable(SETTING, s) && Idle(s) && s.clock == 0
    ensures s.cache == Replaced(EmptyCache(SETTING.ttl), doc, 0)
  {
    InitReachable(SETTING);
    s := FetchFirst(Init(SETTING), Name(0), doc);
  }

  lemma FirstStage(doc: seq<Jwk>) returns (s: System)
    requires |doc| == CROWD && doc == Document(|doc|)
    ensures Stage(s, 0)
  {
    Listed(doc, 0);
    var s1 := Opened(doc);
    var s2 := EvictCached(s1, Name(0), map[Name(0) := 0]);
    s := s2.(clock := s2.clock + 1);
    Extend(SETTING, s2, Tick(1), s);
    assert Names(1) == Names(0) + {Name(0)};
    forall i: nat | 0 < i < CROWD ensures Name(i) in s.cache.keys {
      Listed(doc, i);
      assert Name(i) != Name(0);
    }
    assert Evicted(0, Name(0), SignatureMismatch) == s2.log[|s1.log|];
  }

  lemma NextStage(s: System, n: nat) returns (s': System)
    requires Stage(s, n) && n + 1 < EVICTION_MAP_MAX_ENTRIES
    ensures Stage(s', n + 1)
  {
    var kid := Name(n + 1);
    s' := EvictCached(s, kid, s.cache.evictions[kid := 1]);
    assert Names(n + 2) == Names(n + 1) + {kid};
    forall i: nat | i <= n + 1 ensures s'.cache.evictions[Name(i)] == if i == 0 then 0 else 1 {
      assert i <= n ==> Name(i) in s.cache.evictions.Keys && Name(i) != kid;
    }
    forall i: nat | n + 1 < i < CROWD ensures Name(i) in s'.cache.keys {
      assert Name(i) != kid;
    }
  }

  lemma {:induction false} Fill(n: nat) returns (s: System)
    requires n < EVICTION_MAP_MAX_ENTRIES
    ensures Stage(s, n)
  {
    if n == 0 {
      s := FirstStage(Document(CROWD));
    } else {
      var before := Fill(n - 1);
      s := NextStage(before, n - 1);
    }
  }

  /** One more kid drops kid 0, the oldest, although its backoff has nine instants left. */
  lemma Forget() returns (s: System)
    ensures Reachable(SETTING, s) && Idle(s) && s.clock == 1
    ensures s.cache.ttl == SETTING.ttl
    ensures Name(0) !in s.cache.evictions && Name(0) in s.cache.refreshOwed
    ensures s.cache.evictions.Keys != {} && forall k :: k in s.cache.evictions ==> s.cache.evictions[k] == 1
    ensures Evicted(0, Name(0), SignatureMismatch) in s.log
  {
    var full := Fill(EVICTION_MAP_MAX_ENTRIES - 1);
    var kid, ev := Name(EVICTION_MAP_MAX_ENTRIES), full.cache.evictions;
    forall k | k in ev ensures ev[k] <= 1 && (k != Name(0) ==> ev[k] == 1) {
      var i := IndexOf(k, EVICTION_MAP_MAX_ENTRIES);
    }
    assert Name(0) in ev.Keys;
    assert Oldest(ev, Name(0));
    s := EvictCached(full, kid, (ev - {Name(0)})[kid := 1]);
    assert kid in s.cache.evictions;
  }

  lemma IndexOf(k: Kid, n: nat) returns (i: nat)
    requires k in Names(n)
    ensures i < n && k == Name(i)
  {
    if k == Name(n - 1) {
      i := n - 1;
    } else {
      i := IndexOf(k, n - 1);
    }
  }

  /**
   A reachable state in which the same kid was evicted for a mismatch at instants 0 and 1, under a
   backoff of 10.
   */
  lemma BackoffBroken() returns (s: System)
    ensures Reachable(SETTING, s) && !Spaced(SETTING, s.log)
    ensures exists i, j :: 0 <= i < j < |s.log|
              && s.log[i] == Evicted(0, Name(0), SignatureMismatch) && s.log[j] == Evicted(1, Name(0), SignatureMismatch)
  {
    var s1 := Forget();
    assert Name(0) !in s1.cache.keys by {
      var run :| IsRun(SETTING, run) && run[|run| - 1] == s1;
      RunMemory(SETTING, run, |run| - 1);
    }
    var doc := Document(1);
    Listed(doc, 0);
    var s2 := FetchFirst(s1, Name(0), doc);
    var ev := s2.cache.evictions;
    var k :| k in ev;
    assert Oldest(ev, k);
    var after := if |ev.Keys| < EVICTION_MAP_MAX_ENTRIES then ev[Name(0) := 1] else (ev - {k})[Name(0) := 1];
    s := EvictCached(s2, Name(0), after);
    var i :| 0 <= i < |s1.log| && s1.log[i] == Evicted(0, Name(0), SignatureMismatch);
    assert s.log[i] == s1.log[i] && s.log[|s2.log|] == Evicted(1, Name(0), SignatureMismatch);
    assert IsMismatch(s.log[i]) && IsMismatch(s.log[|s2.log|]);
  }
}

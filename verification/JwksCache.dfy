/**
 The in-memory JSON Web Key Set cache: `kid -> Jwk` under one freshness instant, a bounded map of
 eviction timestamps, and a bounded set of kids owed one cooldown-exempt refresh.

 `Cache` is the cache as a value and the predicates beside it say what each operation does to it;
 `JwksCache` is the mutable object, each of whose methods is proved against them.
 */
module Jwks {
  import opened Common
  import opened Text

  type Kid = string

  /** A published key. The `kid` member is optional (section 4.5 of RFC 7517). */
  datatype Jwk = Jwk(kid: Option<Kid>, material: nat)

  const EVICTION_MAP_MAX_ENTRIES: nat := 1024

  datatype EvictionReason = SignatureMismatch | KidNotInCache

  datatype Cache = Cache(
    keys: map<Kid, Jwk>,
    fetchedAt: Option<Instant>,
    ttl: nat,
    evictions: map<Kid, Instant>,
    lastRefreshCompleted: Option<Instant>,
    refreshOwed: set<Kid>)
  {
    predicate IsFresh(now: Instant) {
      fetchedAt.Some? && Elapsed(now, fetchedAt.value) < ttl
    }

    predicate WithinCooldown(now: Instant, backoff: nat) {
      lastRefreshCompleted.Some? && Elapsed(now, lastRefreshCompleted.value) < backoff
    }
  }

  function EmptyCache(ttl: nat): Cache {
    Cache(map[], None, ttl, map[], None, {})
  }

  // ----- The fetched document ------------------------------------------------------------------

  /** The addressable keys of a document: entries without a kid are skipped, later entries win. */
  function DocumentKeys(doc: seq<Jwk>): map<Kid, Jwk> {
    if doc == [] then map[]
    else
      var last := doc[|doc| - 1];
      var before := DocumentKeys(doc[..|doc| - 1]);
      if last.kid.Some? then before[last.kid.value := last] else before
  }

  ghost predicate LastEntryFor(doc: seq<Jwk>, kid: Kid, i: nat) {
    && i < |doc|
    && doc[i].kid == Some(kid)
    && forall j :: i < j < |doc| ==> doc[j].kid != Some(kid)
  }

  /** A document answers for a kid exactly when it lists it, and with the last entry listing it. */
  lemma {:induction false} DocumentKeysAreLastEntries(doc: seq<Jwk>, kid: Kid)
    ensures kid in DocumentKeys(doc) <==> exists i: nat :: LastEntryFor(doc, kid, i)
    ensures forall i: nat :: LastEntryFor(doc, kid, i) ==> kid in DocumentKeys(doc) && DocumentKeys(doc)[kid] == doc[i]
  {
    if doc != [] {
      var n := |doc| - 1;
      DocumentKeysAreLastEntries(doc[..n], kid);
      if doc[n].kid == Some(kid) {
        assert LastEntryFor(doc, kid, n);
      } else {
        forall i: nat ensures LastEntryFor(doc, kid, i) <==> LastEntryFor(doc[..n], kid, i) {
          if LastEntryFor(doc[..n], kid, i) {
            assert forall j :: i < j < n ==> doc[j] == doc[..n][j];
          }
        }
      }
    }
  }

  // ----- Refresh and eviction, on values -------------------------------------------------------

  function Replaced(c: Cache, doc: seq<Jwk>, now: Instant): Cache {
    c.(keys := DocumentKeys(doc), fetchedAt := Some(now), lastRefreshCompleted := Some(now), refreshOwed := {})
  }

  ghost predicate Oldest(timestamps: map<Kid, Instant>, kid: Kid) {
    kid in timestamps && forall k :: k in timestamps ==> timestamps[kid] <= timestamps[k]
  }

  /**
   `after` is `before` with `kid` stamped `now`. A full map first gives up one oldest entry;
   which one, when several are equally old, is not determined.
   */
  ghost predicate Recorded(before: map<Kid, Instant>, kid: Kid, now: Instant, after: map<Kid, Instant>) {
    if kid in before || |before.Keys| < EVICTION_MAP_MAX_ENTRIES then
      after == before[kid := now]
    else
      exists victim :: Oldest(before, victim) && after == (before - {victim})[kid := now]
  }

  function Marked(owed: set<Kid>, kid: Kid): set<Kid> {
    if kid in owed || |owed| < EVICTION_MAP_MAX_ENTRIES then owed + {kid} else owed
  }

  predicate Throttled(c: Cache, kid: Kid, reason: EvictionReason, now: Instant, backoff: nat) {
    reason == SignatureMismatch && kid in c.evictions && Elapsed(now, c.evictions[kid]) < backoff
  }

  ghost predicate Evicts(before: Cache, kid: Kid, reason: EvictionReason, now: Instant, after: Cache) {
    && after == before.(
         keys := before.keys - {kid},
         refreshOwed := Marked(before.refreshOwed, kid),
         evictions := after.evictions)
    && (if reason == SignatureMismatch
        then Recorded(before.evictions, kid, now, after.evictions)
        else after.evictions == before.evictions)
  }

  ghost predicate WithinBounds(c: Cache) {
    && |c.evictions.Keys| <= EVICTION_MAP_MAX_ENTRIES
    && |c.refreshOwed| <= EVICTION_MAP_MAX_ENTRIES
    && c.refreshOwed !! c.keys.Keys
  }

  /** Recording never grows the map past its cap, stamps the kid, and keeps every other entry it holds. */
  lemma RecordedStaysBounded(before: map<Kid, Instant>, kid: Kid, now: Instant, after: map<Kid, Instant>)
    requires |before.Keys| <= EVICTION_MAP_MAX_ENTRIES
    requires Recorded(before, kid, now, after)
    ensures |after.Keys| <= EVICTION_MAP_MAX_ENTRIES
    ensures kid in after && after[kid] == now
    ensures forall k :: k in after && k != kid ==> k in before && after[k] == before[k]
  {
    if kid in before || |before.Keys| < EVICTION_MAP_MAX_ENTRIES {
      UpdatedSize(before, kid, now);
    } else {
      var victim :| Oldest(before, victim) && after == (before - {victim})[kid := now];
      RemovedSize(before, victim);
      UpdatedSize(before - {victim}, kid, now);
    }
  }

  lemma EvictsStaysBounded(before: Cache, kid: Kid, reason: EvictionReason, now: Instant, after: Cache)
    requires WithinBounds(before)
    requires Evicts(before, kid, reason, now, after)
    ensures WithinBounds(after)
  {
    if reason == SignatureMismatch {
      RecordedStaysBounded(before.evictions, kid, now, after.evictions);
    }
    AddedSize(before.refreshOwed, kid);
    assert after.keys.Keys == before.keys.Keys - {kid};
  }

  // ----- Rotation -----------------------------------------------------------------------------

  ghost predicate LeastOf(kids: set<Kid>, least: Option<Kid>) {
    if kids == {} then least == None
    else least.Some? && least.value in kids && forall k :: k in kids ==> LexLeq(least.value, k)
  }

  method SmallestKid(kids: set<Kid>) returns (least: Option<Kid>)
    ensures LeastOf(kids, least)
  {
    least := None;
    var rest := kids;
    while rest != {}
      invariant rest <= kids
      invariant LeastOf(kids - rest, least)
      decreases rest
    {
      var k :| k in rest;
      LexReflexive(k);
      if least == None {
        assert kids - (rest - {k}) == {k};
        least := Some(k);
      } else {
        LexTotal(least.value, k);
        if !LexLeq(least.value, k) {
          forall j | j in kids - rest ensures LexLeq(k, j) {
            LexTransitive(k, least.value, j);
          }
          least := Some(k);
        }
      }
      rest := rest - {k};
    }
    assert kids - rest == kids;
  }

  /** What an observed rotation reports: the smallest kid that appeared and the smallest that went. */
  datatype Rotation = Rotation(kidAdded: Kid, kidEvicted: Option<Kid>)

  ghost predicate RotationOf(previous: set<Kid>, current: set<Kid>, rotation: Option<Rotation>) {
    && (rotation == None <==> current <= previous)
    && (rotation.Some? ==>
          && LeastOf(current - previous, Some(rotation.value.kidAdded))
          && LeastOf(previous - current, rotation.value.kidEvicted))
  }

  // ----- The mutable cache ---------------------------------------------------------------------

  class JwksCache {
    var keys: map<Kid, Jwk>
    var fetchedAt: Option<Instant>
    const ttl: nat
    var evictions: map<Kid, Instant>
    var lastRefreshCompleted: Option<Instant>
    var refreshOwed: set<Kid>

    ghost function Model(): Cache
      reads this
    {
      Cache(keys, fetchedAt, ttl, evictions, lastRefreshCompleted, refreshOwed)
    }

    constructor (ttl: nat)
      ensures Model() == EmptyCache(ttl)
    {
      this.ttl := ttl;
      keys, fetchedAt, evictions, lastRefreshCompleted, refreshOwed := map[], None, map[], None, {};
    }

    method Replace(doc: seq<Jwk>, now: Instant) returns (rotation: Option<Rotation>)
      modifies this
      ensures Model() == Replaced(old(Model()), doc, now)
      ensures RotationOf(old(keys.Keys), keys.Keys, rotation)
    {
      var previous := keys.Keys;
      keys := map[];
      for i := 0 to |doc|
        invariant keys == DocumentKeys(doc[..i])
        invariant Model() == old(Model()).(keys := keys)
      {
        assert doc[..i + 1][..i] == doc[..i];
        if doc[i].kid.Some? {
          keys := keys[doc[i].kid.value := doc[i]];
        }
      }
      assert doc[..|doc|] == doc;
      fetchedAt, lastRefreshCompleted, refreshOwed := Some(now), Some(now), {};
      var added := SmallestKid(keys.Keys - previous);
      var gone := SmallestKid(previous - keys.Keys);
      assert keys.Keys - previous == {} ==> keys.Keys <= previous by {
        assert forall k :: k in keys.Keys && k !in previous ==> k in keys.Keys - previous;
      }
      rotation := if added.Some? then Some(Rotation(added.value, gone)) else None;
    }

    method RecordEvictionTimestamp(kid: Kid, now: Instant)
      modifies this`evictions
      ensures Recorded(old(evictions), kid, now, evictions)
    {
      if kid !in evictions && |evictions.Keys| >= EVICTION_MAP_MAX_ENTRIES {
        var oldest := OldestKid();
        evictions := evictions - {oldest};
      }
      evictions := evictions[kid := now];
    }

    method OldestKid() returns (oldest: Kid)
      requires evictions.Keys != {}
      ensures Oldest(evictions, oldest)
    {
      oldest :| oldest in evictions.Keys;
      var rest := evictions.Keys - {oldest};
      while rest != {}
        invariant rest <= evictions.Keys
        invariant oldest in evictions
        invariant forall k :: k in evictions.Keys - rest ==> evictions[oldest] <= evictions[k]
        decreases rest
      {
        var k :| k in rest;
        if evictions[k] < evictions[oldest] {
          oldest := k;
        }
        rest := rest - {k};
      }
    }

    /** The set stays within its cap and loses nothing, and leaves a kid unmarked only at the cap. */
    method MarkRefreshOwed(kid: Kid)
      modifies this`refreshOwed
      ensures refreshOwed == Marked(old(refreshOwed), kid)
      ensures old(refreshOwed) <= refreshOwed <= old(refreshOwed) + {kid}
      ensures |old(refreshOwed)| <= EVICTION_MAP_MAX_ENTRIES ==> |refreshOwed| <= EVICTION_MAP_MAX_ENTRIES
      ensures kid !in refreshOwed ==> |refreshOwed| >= EVICTION_MAP_MAX_ENTRIES
    {
      AddedSize(refreshOwed, kid);
      if kid in refreshOwed || |refreshOwed| < EVICTION_MAP_MAX_ENTRIES {
        refreshOwed := refreshOwed + {kid};
      }
    }

    method Evict(kid: Kid, reason: EvictionReason, now: Instant, backoff: nat) returns (effective: bool)
      modifies this
      ensures effective <==> !Throttled(old(Model()), kid, reason, now, backoff)
      ensures effective ==> Evicts(old(Model()), kid, reason, now, Model())
      ensures !effective ==> Model() == old(Model())
    {
      if reason == SignatureMismatch {
        if kid in evictions && Elapsed(now, evictions[kid]) < backoff {
          return false;
        }
        RecordEvictionTimestamp(kid, now);
      }
      keys := keys - {kid};
      MarkRefreshOwed(kid);
      return true;
    }
  }
}

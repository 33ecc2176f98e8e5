/**
 The advisory query, said on values: what one component's answer is, what a cache entry may hold, and
 what a query that met a given cache and given failures returns.
 */
module OsvSpec {
  import opened Common
  import opened OsvKeys
  import opened OsvTypes

  datatype Query = Query(name: string, eco: string, version: Option<string>)

  /** An advisory as the batch endpoint identifies it. */
  datatype VulnId = VulnId(id: string, modified: Option<string>)

  /** What a cache entry's bytes decode to. */
  datatype Blob = FindingsBlob(findings: seq<Finding>) | RecordBlob(record: OsvVuln) | OtherBlob

  type Cache = map<string, Blob>

  function FindingsIn(b: Blob): Option<seq<Finding>> {
    if b.FindingsBlob? then Some(b.findings) else None
  }

  /** Every field of a record is optional, so a findings blob would decode as an empty record. */
  function RecordIn(b: Blob): Option<OsvVuln> {
    match b
    case FindingsBlob(_) => Some(Abbreviated("", None))
    case RecordBlob(record) => Some(record)
    case OtherBlob => None
  }

  /** The fixed surroundings: what the feed knows, the digest, and how a record becomes a finding. */
  datatype World = World(
    batch: Query -> seq<OsvVuln>,
    record: string -> Option<OsvVuln>,
    digest: Digest,
    convert: (Component, OsvVuln) -> Finding)

  function QueryOf(c: Component): Query {
    Query(c.name, c.eco, c.version)
  }

  /** An id that cannot reach beyond its place in a URL. */
  predicate SafeForPath(id: string): (safe: bool)
    ensures safe ==> id != [] && '/' !in id && '?' !in id && '#' !in id && '%' !in id && ' ' !in id
  {
    id != [] && forall i :: 0 <= i < |id| ==>
      'a' <= id[i] <= 'z' || 'A' <= id[i] <= 'Z' || '0' <= id[i] <= '9' || id[i] in "._-"
  }

  /** Asking for the full record: an id that cannot be a path segment is not asked for. */
  function Fetched(w: World, id: string): Option<OsvVuln> {
    if SafeForPath(id) then w.record(id) else None
  }

  // ----- What a query would find -----------------------------------------------------------------

  function IdOf(v: OsvVuln): VulnId {
    VulnId(v.id, v.modified)
  }

  /** The full record where the feed has one. */
  function Hydrated(w: World, v: OsvVuln): OsvVuln {
    if v.id != [] && Fetched(w, v.id).Some? then Fetched(w, v.id).value else v
  }

  /** A record as a query sees it: hydrated, unless fetching it failed. */
  function Seen(w: World, failed: set<VulnId>, v: OsvVuln): OsvVuln {
    if IdOf(v) in failed then v else Hydrated(w, v)
  }

  function Converted(w: World, c: Component, vulns: seq<OsvVuln>, failed: set<VulnId>): seq<Finding> {
    if vulns == [] then []
    else Converted(w, c, vulns[..|vulns| - 1], failed) + [w.convert(c, Seen(w, failed, vulns[|vulns| - 1]))]
  }

  /** One component on its own, with some fetches failing: ask the feed, hydrate each advisory, convert. */
  function Built(w: World, c: Component, failed: set<VulnId>): seq<Finding> {
    Converted(w, c, w.batch(QueryOf(c)), failed)
  }

  function BuiltAll(w: World, cs: seq<Component>, failed: set<VulnId>): seq<Finding> {
    if cs == [] then [] else BuiltAll(w, cs[..|cs| - 1], failed) + Built(w, cs[|cs| - 1], failed)
  }

  /** The answer for a component when nothing fails. */
  function Naive(w: World, c: Component): seq<Finding> {
    Built(w, c, {})
  }

  function NaiveAll(w: World, cs: seq<Component>): seq<Finding> {
    BuiltAll(w, cs, {})
  }

  /** One of the component's advisories is among the failed fetches. */
  ghost predicate Touched(w: World, c: Component, failed: set<VulnId>) {
    exists i :: 0 <= i < |w.batch(QueryOf(c))| && IdOf(w.batch(QueryOf(c))[i]) in failed
  }

  lemma {:induction false} ConvertedUntouched(w: World, c: Component, vulns: seq<OsvVuln>, failed: set<VulnId>)
    requires forall i :: 0 <= i < |vulns| ==> IdOf(vulns[i]) !in failed
    ensures Converted(w, c, vulns, failed) == Converted(w, c, vulns, {})
  {
    if vulns != [] {
      ConvertedUntouched(w, c, vulns[..|vulns| - 1], failed);
    }
  }

  /** Failures elsewhere do not show. */
  lemma UntouchedIsNaive(w: World, c: Component, failed: set<VulnId>)
    requires !Touched(w, c, failed)
    ensures Built(w, c, failed) == Naive(w, c)
  {
    ConvertedUntouched(w, c, w.batch(QueryOf(c)), failed);
  }

  // ----- Truthful caches -------------------------------------------------------------------------

  function KeyOf(w: World, c: Component): string {
    ComponentKey(w.digest, c.eco, c.name, c.version)
  }

  function RecordKey(w: World, k: VulnId): string {
    VulnKey(w.digest, k.id, k.modified)
  }

  /** Exactly when two components share a key: all but the version agree, an absent one counting as `*`, and the purl is not looked at. */
  lemma SharedKeyExactly(w: World, o: Component, c: Component)
    requires CollisionFree(w.digest) && SeparatorFree(o.eco) && SeparatorFree(o.name) && SeparatorFree(c.eco) && SeparatorFree(c.name)
    ensures KeyOf(w, o) == KeyOf(w, c) <==> o.eco == c.eco && o.name == c.name && SameField(o.version, c.version)
  {
    ComponentKeysEqual(w.digest, o.eco, o.name, o.version, c.eco, c.name, c.version);
    ComponentPreimagesEqual(o.eco, o.name, o.version, c.eco, c.name, c.version);
  }

  /** A component's cached findings, if there are any that decode. */
  function Hit(w: World, cache: Cache, c: Component): Option<seq<Finding>> {
    if KeyOf(w, c) in cache then FindingsIn(cache[KeyOf(w, c)]) else None
  }

  /** What an answer was built from: the component it was built for, and the fetches that failed then. */
  datatype Origin = Origin(component: Component, failed: set<VulnId>)

  type Origins = map<string, Origin>

  /** A component's entry was built for a component with its key. */
  ghost predicate EntryTrue(w: World, cache: Cache, origins: Origins, c: Component) {
    Hit(w, cache, c).Some? ==>
      && KeyOf(w, c) in origins && KeyOf(w, origins[KeyOf(w, c)].component) == KeyOf(w, c)
      && Hit(w, cache, c).value == Built(w, origins[KeyOf(w, c)].component, origins[KeyOf(w, c)].failed)
  }

  ghost predicate RecordTrue(w: World, cache: Cache, k: VulnId) {
    RecordKey(w, k) in cache ==>
      RecordIn(cache[RecordKey(w, k)]) == None || RecordIn(cache[RecordKey(w, k)]) == Fetched(w, k.id)
  }

  /**
   Whatever a lookup would accept was built from the feed's own answers: findings for the origin noted
   under their key, and records as the feed has them.
   */
  ghost predicate Truthful(w: World, cache: Cache, origins: Origins) {
    && (forall c :: EntryTrue(w, cache, origins, c))
    && (forall k: VulnId :: SeparatorFree(k.id) ==> RecordTrue(w, cache, k))
  }

  lemma RecordKeyIdentifies(w: World, k: VulnId, k': VulnId)
    requires CollisionFree(w.digest) && SeparatorFree(k.id) && SeparatorFree(k'.id)
    requires RecordKey(w, k) == RecordKey(w, k')
    ensures k.id == k'.id
  {
    VulnKeysEqual(w.digest, k.id, k.modified, k'.id, k'.modified);
    VulnPreimagesEqual(k.id, k.modified, k'.id, k'.modified);
  }

  /** Writing what was built for a component, whichever others have its key. */
  lemma StoreFindings(w: World, cache: Cache, origins: Origins, c: Component, failed: set<VulnId>)
    requires Truthful(w, cache, origins)
    ensures Truthful(w, cache[KeyOf(w, c) := FindingsBlob(Built(w, c, failed))], origins[KeyOf(w, c) := Origin(c, failed)])
  {
    var after := cache[KeyOf(w, c) := FindingsBlob(Built(w, c, failed))];
    var origins' := origins[KeyOf(w, c) := Origin(c, failed)];
    forall c' ensures EntryTrue(w, after, origins', c') {
      assert EntryTrue(w, cache, origins, c');
    }
    forall k: VulnId | SeparatorFree(k.id) ensures RecordTrue(w, after, k) {
      KeyspacesDisjoint(w.digest, c.eco, c.name, c.version, k.id, k.modified);
      assert RecordTrue(w, cache, k);
    }
  }

  lemma StoreRecord(w: World, cache: Cache, origins: Origins, k: VulnId)
    requires CollisionFree(w.digest) && Truthful(w, cache, origins) && SeparatorFree(k.id) && Fetched(w, k.id).Some?
    ensures Truthful(w, cache[RecordKey(w, k) := RecordBlob(Fetched(w, k.id).value)], origins)
  {
    var after := cache[RecordKey(w, k) := RecordBlob(Fetched(w, k.id).value)];
    forall c ensures EntryTrue(w, after, origins, c) {
      assert EntryTrue(w, cache, origins, c);
    }
    forall k': VulnId | SeparatorFree(k'.id) ensures RecordTrue(w, after, k') {
      assert RecordTrue(w, cache, k');
      if RecordKey(w, k') == RecordKey(w, k) {
        RecordKeyIdentifies(w, k, k');
      }
    }
  }

  lemma EvictionKeepsTruth(w: World, cache: Cache, origins: Origins, keys: set<string>)
    requires Truthful(w, cache, origins)
    ensures Truthful(w, cache - keys, origins - keys)
  {
    forall c ensures EntryTrue(w, cache - keys, origins - keys, c) {
      assert EntryTrue(w, cache, origins, c);
    }
    forall k: VulnId | SeparatorFree(k.id) ensures RecordTrue(w, cache - keys, k) {
      assert RecordTrue(w, cache, k);
    }
  }

  // ----- The answer, exactly ---------------------------------------------------------------------

  function HitsOf(w: World, cache: Cache, cs: seq<Component>): seq<Finding> {
    if cs == [] then []
    else
      HitsOf(w, cache, cs[..|cs| - 1])
      + if Hit(w, cache, cs[|cs| - 1]).Some? then Hit(w, cache, cs[|cs| - 1]).value else []
  }

  function MissesOf(w: World, cache: Cache, cs: seq<Component>): seq<Component> {
    if cs == [] then []
    else
      MissesOf(w, cache, cs[..|cs| - 1])
      + if Hit(w, cache, cs[|cs| - 1]).Some? then [] else [cs[|cs| - 1]]
  }

  /** The findings of a query that met this cache and these failures: the hits, then what was built. */
  function Answered(w: World, cache: Cache, failed: set<VulnId>, cs: seq<Component>): seq<Finding> {
    HitsOf(w, cache, cs) + BuiltAll(w, MissesOf(w, cache, cs), failed)
  }

  lemma {:induction false} MissesAreAsked(w: World, cache: Cache, cs: seq<Component>, c: Component)
    ensures c in MissesOf(w, cache, cs) <==> c in cs && Hit(w, cache, c) == None
  {
    if cs != [] {
      MissesAreAsked(w, cache, cs[..|cs| - 1], c);
      assert cs == cs[..|cs| - 1] + [cs[|cs| - 1]];
    }
  }
}

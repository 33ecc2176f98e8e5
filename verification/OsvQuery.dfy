/**
 The advisory adapter: per-component cache, batched misses, one hydration per distinct advisory, write
 back. It must answer as if each component had been asked about on its own.
 */
module OsvQuery {
  import opened Common
  import opened OsvKeys
  import opened OsvTypes
  import opened OsvSpec
  import opened OsvSbom

  // ----- The adapter -----------------------------------------------------------------------------

  /**
   What may go wrong during one query: any cache access by its position, any batch request, whose
   reply may be missing or of the wrong length, and fetching any record. A query fetches an advisory
   at most once, so the advisory identifies the fetch.
   */
  datatype Faults = Faults(
    reply: (nat, seq<Query>) -> Option<seq<seq<OsvVuln>>>,
    getFails: nat -> bool,
    putFails: nat -> bool,
    recordGetFails: nat -> bool,
    recordPutFails: nat -> bool,
    recordFails: VulnId -> bool)

  /** A reply of the right length is the feed's answer, entry by entry. */
  ghost predicate Answering(w: World, f: Faults) {
    forall n: nat, qs: seq<Query> :: f.reply(n, qs).Some? && |f.reply(n, qs).value| == |qs| ==>
      forall i :: 0 <= i < |qs| ==> f.reply(n, qs).value[i] == w.batch(qs[i])
  }

  /** Every batch request is answered, one answer per question. */
  ghost predicate Replies(f: Faults) {
    forall n: nat, qs: seq<Query> :: f.reply(n, qs).Some? && |f.reply(n, qs).value| == |qs|
  }

  /** Nothing goes wrong but, perhaps, fetching records. */
  ghost predicate Serving(f: Faults) {
    Replies(f) && (forall n: nat :: !f.getFails(n)) && forall n: nat :: !f.putFails(n)
  }

  /** The feed's ids do not contain the separator. */
  ghost predicate IdsSeparatorFree(w: World) {
    forall q, i :: 0 <= i < |w.batch(q)| ==> SeparatorFree(w.batch(q)[i].id)
  }

  ghost predicate Sane(w: World, f: Faults) {
    CollisionFree(w.digest) && Answering(w, f) && IdsSeparatorFree(w)
  }

  datatype Answer = Answer(component: Component, vulns: seq<OsvVuln>)

  /** POST one chunk; a reply whose length disagrees with the question is refused whole. */
  method PostBatch(w: World, f: Faults, n: nat, qs: seq<Query>) returns (r: Option<seq<seq<OsvVuln>>>)
    ensures r.Some? ==> |r.value| == |qs|
    ensures r.Some? && Answering(w, f) ==> forall i :: 0 <= i < |qs| ==> r.value[i] == w.batch(qs[i])
    ensures Replies(f) ==> r.Some?
  {
    r := f.reply(n, qs);
    if r.Some? && |r.value| != |qs| {
      r := None;
    }
  }

  function Queries(cs: seq<Component>): (qs: seq<Query>)
    ensures |qs| == |cs| && forall i :: 0 <= i < |cs| ==> qs[i] == QueryOf(cs[i])
  {
    seq(|cs|, i requires 0 <= i < |cs| => QueryOf(cs[i]))
  }

  /** Each miss with the feed's answer for it. */
  ghost predicate AnswersOf(w: World, misses: seq<Component>, answers: seq<Answer>) {
    |answers| == |misses| && forall i :: 0 <= i < |misses| ==> answers[i] == Answer(misses[i], w.batch(QueryOf(misses[i])))
  }

  /** Ask about every miss, `batchSize` at a time. `posted` are the questions, in the order they were sent. */
  method FetchMisses(w: World, f: Faults, misses: seq<Component>, batchSize: nat) returns (r: Option<seq<Answer>>, posted: seq<Query>)
    requires batchSize >= 1 && Answering(w, f)
    ensures r.Some? ==> AnswersOf(w, misses, r.value)
    ensures Replies(f) ==> r.Some?
    ensures |posted| <= |misses| && (r.Some? ==> |posted| == |misses|)
    ensures forall j :: 0 <= j < |posted| ==> Asks(posted[j], misses[j])
  {
    var answers: seq<Answer>, at, chunks := [], 0, 0;
    posted := [];
    while at < |misses|
      invariant at == |answers| == |posted| <= |misses|
      invariant forall i :: 0 <= i < at ==> answers[i] == Answer(misses[i], w.batch(QueryOf(misses[i])))
      invariant forall j :: 0 <= j < at ==> Asks(posted[j], misses[j])
    {
      var end := if at + batchSize <= |misses| then at + batchSize else |misses|;
      var chunk := misses[at..end];
      posted := posted + Queries(chunk);
      var reply := PostBatch(w, f, chunks, Queries(chunk));
      if reply == None {
        return None, posted;
      }
      for i := 0 to |chunk|
        invariant |answers| == at + i
        invariant forall j :: 0 <= j < at + i ==> answers[j] == Answer(misses[j], w.batch(QueryOf(misses[j])))
      {
        answers := answers + [Answer(chunk[i], reply.value[i])];
      }
      at, chunks := end, chunks + 1;
    }
    return Some(answers), posted;
  }

  ghost predicate Mentions(answers: seq<Answer>, k: VulnId) {
    exists i, j :: 0 <= i < |answers| && 0 <= j < |answers[i].vulns|
      && k == IdOf(answers[i].vulns[j])
  }

  /** Every advisory the answers mention, once. */
  method DistinctVulns(answers: seq<Answer>) returns (keys: seq<VulnId>)
    ensures Distinct(keys)
    ensures forall k :: k in keys <==> k.id != [] && Mentions(answers, k)
  {
    keys := [];
    for i := 0 to |answers|
      invariant Distinct(keys)
      invariant forall k :: k in keys <==> k.id != [] && Mentions(answers[..i], k)
    {
      var vulns := answers[i].vulns;
      for j := 0 to |vulns|
        invariant Distinct(keys)
        invariant forall k :: k in keys <==>
                    k.id != [] && (Mentions(answers[..i], k) || exists m :: 0 <= m < j && k == IdOf(vulns[m]))
      {
        var k := IdOf(vulns[j]);
        if k.id != [] && k !in keys {
          keys := keys + [k];
        }
      }
      forall k ensures Mentions(answers[..i + 1], k) <==>
                       Mentions(answers[..i], k) || exists m :: 0 <= m < |vulns| && k == IdOf(vulns[m])
      {
        MentionsStep(answers, i, k);
      }
    }
    assert answers[..|answers|] == answers;
  }

  lemma MentionsStep(answers: seq<Answer>, i: nat, k: VulnId)
    requires i < |answers|
    ensures Mentions(answers[..i + 1], k) <==>
            Mentions(answers[..i], k)
            || exists m :: 0 <= m < |answers[i].vulns| && k == IdOf(answers[i].vulns[m])
  {
    var shorter, longer := answers[..i], answers[..i + 1];
    if Mentions(longer, k) {
      var a, j :| 0 <= a < |longer| && 0 <= j < |longer[a].vulns| && k == IdOf(longer[a].vulns[j]);
      if a < i {
        assert shorter[a] == longer[a];
      }
    }
    if Mentions(shorter, k) {
      var a, j :| 0 <= a < |shorter| && 0 <= j < |shorter[a].vulns| && k == IdOf(shorter[a].vulns[j]);
      assert longer[a] == shorter[a];
    }
    if m :| 0 <= m < |answers[i].vulns| && k == IdOf(answers[i].vulns[m]) {
      assert longer[i] == answers[i];
    }
  }

  /** The records a hydration resolved: for each key asked about, the feed's record unless it failed. */
  ghost predicate Resolves(w: World, keys: seq<VulnId>, records: map<VulnId, OsvVuln>, failed: set<VulnId>) {
    && records.Keys <= (set k | k in keys)
    && (forall k :: k in failed ==> k in keys)
    && forall k :: k in keys ==>
         if Fetched(w, k.id).Some? && k !in failed then k in records && records[k] == Fetched(w, k.id).value else k !in records
  }

  lemma ConvertedFromRecords(w: World, c: Component, vulns: seq<OsvVuln>, n: nat, keys: seq<VulnId>, records: map<VulnId, OsvVuln>,
                             failed: set<VulnId>)
    requires n < |vulns| && Resolves(w, keys, records, failed)
    requires Listed(keys, vulns)
    ensures (if IdOf(vulns[n]) in records then records[IdOf(vulns[n])] else vulns[n]) == Seen(w, failed, vulns[n])
    ensures Converted(w, c, vulns[..n + 1], failed) == Converted(w, c, vulns[..n], failed) + [w.convert(c, Seen(w, failed, vulns[n]))]
  {
    assert vulns[..n + 1][..n] == vulns[..n];
  }

  /** The identified advisories are all among the keys. */
  ghost predicate Listed(keys: seq<VulnId>, vulns: seq<OsvVuln>) {
    (forall k :: k in keys ==> k.id != []) && forall j :: 0 <= j < |vulns| && vulns[j].id != [] ==> IdOf(vulns[j]) in keys
  }

  lemma MentionedAreListed(answers: seq<Answer>, keys: seq<VulnId>, i: nat)
    requires i < |answers| && forall k :: k in keys <==> k.id != [] && Mentions(answers, k)
    ensures Listed(keys, answers[i].vulns)
  {
    forall j | 0 <= j < |answers[i].vulns| && answers[i].vulns[j].id != [] ensures IdOf(answers[i].vulns[j]) in keys {
      assert Mentions(answers, IdOf(answers[i].vulns[j]));
    }
  }

  /** Every fetch of the record fails and no copy is cached. */
  ghost predicate Unreachable(w: World, cache: Cache, f: Faults, k: VulnId) {
    RecordKey(w, k) !in cache && forall k': VulnId :: k'.id == k.id ==> f.recordFails(k')
  }

  /** New cache entries come from fetches that did not fail. */
  ghost predicate OnlyFetched(w: World, before: Cache, f: Faults, after: Cache) {
    forall key :: key in after && key !in before ==>
      exists k: VulnId :: key == RecordKey(w, k) && SeparatorFree(k.id) && !f.recordFails(k)
  }

  /** The advisories of `keys` that stay abbreviated: only failed fetches, and every unreachable one. */
  ghost predicate FailuresOf(w: World, before: Cache, f: Faults, keys: seq<VulnId>, failed: set<VulnId>) {
    && (forall k :: k in failed ==> k in keys && f.recordFails(k) && Fetched(w, k.id).Some?)
    && (forall k :: k in keys && Unreachable(w, before, f, k) && Fetched(w, k.id).Some? ==> k in failed)
  }

  lemma UnreachableStays(w: World, before: Cache, f: Faults, cache: Cache, k: VulnId)
    requires CollisionFree(w.digest) && SeparatorFree(k.id)
    requires OnlyFetched(w, before, f, cache) && Unreachable(w, before, f, k)
    ensures RecordKey(w, k) !in cache && f.recordFails(k)
  {
    if RecordKey(w, k) in cache {
      var k': VulnId :| RecordKey(w, k) == RecordKey(w, k') && SeparatorFree(k'.id) && !f.recordFails(k');
      RecordKeyIdentifies(w, k, k');
    }
  }

  lemma FetchKeepsOrigin(w: World, first: Cache, f: Faults, before: Cache, after: Cache, k: VulnId)
    requires OnlyFetched(w, first, f, before) && SeparatorFree(k.id)
    requires after == before || (!f.recordFails(k) && after.Keys == before.Keys + {RecordKey(w, k)})
    ensures OnlyFetched(w, first, f, after)
  {
  }

  ghost function FailedAfter(w: World, failed: set<VulnId>, k: VulnId, record: Option<OsvVuln>): set<VulnId> {
    if record == None && Fetched(w, k.id).Some? then failed + {k} else failed
  }

  ghost predicate Outcome(w: World, f: Faults, k: VulnId, record: Option<OsvVuln>) {
    record == Fetched(w, k.id) || (record == None && f.recordFails(k))
  }

  /** One more advisory resolved. */
  lemma ResolvesOneMore(w: World, f: Faults, keys: seq<VulnId>, k: VulnId, records: map<VulnId, OsvVuln>, failed: set<VulnId>,
                        record: Option<OsvVuln>)
    requires k !in keys && Resolves(w, keys, records, failed) && Outcome(w, f, k, record)
    ensures Resolves(w, keys + [k], if record.Some? then records[k := record.value] else records, FailedAfter(w, failed, k, record))
  {
  }

  /** One more failure, or none. */
  lemma FailuresOneMore(w: World, before: Cache, f: Faults, keys: seq<VulnId>, k: VulnId, failed: set<VulnId>, record: Option<OsvVuln>)
    requires FailuresOf(w, before, f, keys, failed) && Outcome(w, f, k, record)
    requires Unreachable(w, before, f, k) ==> record == None
    ensures FailuresOf(w, before, f, keys + [k], FailedAfter(w, failed, k, record))
  {
  }

  /** Requests are for keys already visited, each made once. */
  ghost predicate AskedOnce(requests: seq<VulnId>, keys: seq<VulnId>) {
    Distinct(requests) && forall k :: k in requests ==> k in keys
  }

  lemma AskedOneMore(requests: seq<VulnId>, keys: seq<VulnId>, k: VulnId)
    requires AskedOnce(requests, keys) && k !in keys
    ensures AskedOnce(requests, keys + [k]) && AskedOnce(requests + [k], keys + [k])
  {
  }

  class OsvAdvisoryAdapter {
    var cache: Cache
    /** Which component each cached answer was built for, and what failed then. */
    ghost var origins: Origins
    const w: World
    const batchSize: nat

    constructor (w: World, batchSize: nat)
      ensures cache == map[] && origins == map[] && this.w == w && this.batchSize == batchSize
      ensures Truthful(w, cache, origins)
    {
      this.w, this.batchSize := w, batchSize;
      cache, origins := map[], map[];
    }

    /** The backing store may drop any entries at any time. */
    method Evict(keys: set<string>)
      requires Truthful(w, cache, origins)
      modifies this`cache, this`origins
      ensures cache == old(cache) - keys && origins == old(origins) - keys && Truthful(w, cache, origins)
    {
      EvictionKeepsTruth(w, cache, origins, keys);
      cache, origins := cache - keys, origins - keys;
    }

    /** Split the components into cached findings and misses, unless a cache read fails. */
    method LookUp(cs: seq<Component>, f: Faults) returns (ok: bool, hits: seq<Finding>, misses: seq<Component>)
      ensures ok <==> forall i: nat :: i < |cs| ==> !f.getFails(i)
      ensures ok ==> hits == HitsOf(w, cache, cs) && misses == MissesOf(w, cache, cs)
    {
      ok, hits, misses := true, [], [];
      for i := 0 to |cs|
        invariant forall j: nat :: j < i ==> !f.getFails(j)
        invariant hits == HitsOf(w, cache, cs[..i]) && misses == MissesOf(w, cache, cs[..i])
      {
        if f.getFails(i) {
          return false, hits, misses;
        }
        assert cs[..i + 1][..i] == cs[..i];
        var key := KeyOf(w, cs[i]);
        var found := if key in cache then FindingsIn(cache[key]) else None;
        if found.Some? {
          hits := hits + found.value;
        } else {
          misses := misses + [cs[i]];
        }
      }
      assert cs[..|cs|] == cs;
    }

    /** Resolve one advisory, from the cache if it is there. `None` leaves the abbreviated record in use. */
    method HydrateOne(k: VulnId, f: Faults, n: nat) returns (record: Option<OsvVuln>, asked: bool)
      requires CollisionFree(w.digest) && Truthful(w, cache, origins) && SeparatorFree(k.id)
      modifies this`cache
      ensures Truthful(w, cache, origins)
      ensures Outcome(w, f, k, record)
      ensures RecordKey(w, k) !in old(cache) && f.recordFails(k) ==> record == None
      ensures cache == old(cache) || (!f.recordFails(k) && cache.Keys == old(cache).Keys + {RecordKey(w, k)})
      ensures forall key :: key in old(cache) && key != RecordKey(w, k) ==> key in cache && cache[key] == old(cache)[key]
    {
      var key := RecordKey(w, k);
      if key in cache && !f.recordGetFails(n) {
        var cached := RecordIn(cache[key]);
        if cached.Some? {
          return cached, false;
        }
      }
      asked := SafeForPath(k.id);
      record := if f.recordFails(k) then None else Fetched(w, k.id);
      if record.Some? && !f.recordPutFails(n) {
        StoreRecord(w, cache, origins, k);
        cache := cache[key := RecordBlob(record.value)];
      }
    }

    method HydrateRecords(keys: seq<VulnId>, f: Faults)
      returns (records: map<VulnId, OsvVuln>, requests: seq<VulnId>, ghost failed: set<VulnId>)
      requires CollisionFree(w.digest) && Truthful(w, cache, origins) && Distinct(keys)
      requires forall k :: k in keys ==> SeparatorFree(k.id)
      modifies this`cache
      ensures Truthful(w, cache, origins)
      ensures Resolves(w, keys, records, failed) && FailuresOf(w, old(cache), f, keys, failed)
      ensures AskedOnce(requests, keys)
    {
      records, requests, failed := map[], [], {};
      for i := 0 to |keys|
        invariant Truthful(w, cache, origins) && OnlyFetched(w, old(cache), f, cache)
        invariant Resolves(w, keys[..i], records, failed) && FailuresOf(w, old(cache), f, keys[..i], failed)
        invariant AskedOnce(requests, keys[..i])
      {
        if Unreachable(w, old(cache), f, keys[i]) {
          UnreachableStays(w, old(cache), f, cache, keys[i]);
        }
        ghost var before, done := cache, keys[..i];
        assert keys[i] !in done && keys[..i + 1] == done + [keys[i]];
        var record, asked := HydrateOne(keys[i], f, i);
        FetchKeepsOrigin(w, old(cache), f, before, cache, keys[i]);
        ResolvesOneMore(w, f, done, keys[i], records, failed, record);
        FailuresOneMore(w, old(cache), f, done, keys[i], failed, record);
        AskedOneMore(requests, done, keys[i]);
        if asked {
          requests := requests + [keys[i]];
        }
        if record.Some? {
          records := records[keys[i] := record.value];
        }
        failed := FailedAfter(w, failed, keys[i], record);
      }
      assert keys[..|keys|] == keys;
    }

    /** Convert one component's answer and write it back. */
    method StoreAnswer(a: Answer, n: nat, f: Faults, keys: seq<VulnId>, records: map<VulnId, OsvVuln>, ghost failed: set<VulnId>)
      returns (ok: bool, findings: seq<Finding>)
      requires Truthful(w, cache, origins)
      requires a.vulns == w.batch(QueryOf(a.component)) && Resolves(w, keys, records, failed)
      requires Listed(keys, a.vulns)
      modifies this`cache, this`origins
      ensures Truthful(w, cache, origins) && findings == Built(w, a.component, failed)
      ensures ok == !f.putFails(n)
      ensures ok ==> cache == old(cache)[KeyOf(w, a.component) := FindingsBlob(findings)]
      ensures ok ==> origins == old(origins)[KeyOf(w, a.component) := Origin(a.component, failed)]
      ensures !ok ==> cache == old(cache) && origins == old(origins)
    {
      findings := [];
      for j := 0 to |a.vulns|
        invariant cache == old(cache) && origins == old(origins)
        invariant findings == Converted(w, a.component, a.vulns[..j], failed)
      {
        ConvertedFromRecords(w, a.component, a.vulns, j, keys, records, failed);
        var k := IdOf(a.vulns[j]);
        var record := if k in records then records[k] else a.vulns[j];
        findings := findings + [w.convert(a.component, record)];
      }
      assert a.vulns[..|a.vulns|] == a.vulns;
      ok := !f.putFails(n);
      if ok {
        StoreFindings(w, cache, origins, a.component, failed);
        cache := cache[KeyOf(w, a.component) := FindingsBlob(findings)];
        origins := origins[KeyOf(w, a.component) := Origin(a.component, failed)];
      }
    }

    /** Convert and write back every answer; `stored` of them are written before a write fails. */
    method StoreAll(misses: seq<Component>, answers: seq<Answer>, f: Faults, keys: seq<VulnId>, records: map<VulnId, OsvVuln>,
                    ghost failed: set<VulnId>)
      returns (ok: bool, findings: seq<Finding>, ghost stored: nat)
      requires Truthful(w, cache, origins)
      requires Resolves(w, keys, records, failed) && AnswersOf(w, misses, answers)
      requires forall i :: 0 <= i < |answers| ==> Listed(keys, answers[i].vulns)
      modifies this`cache, this`origins
      ensures Truthful(w, cache, origins)
      ensures stored <= |misses| && (ok ==> stored == |misses| && findings == BuiltAll(w, misses, failed))
      ensures (forall n: nat :: !f.putFails(n)) ==> ok
      ensures cache == AfterStores(w, old(cache), misses[..stored], failed)
      ensures origins == OriginsAfter(w, old(origins), misses[..stored], failed)
    {
      ok, findings, stored := true, [], 0;
      for i := 0 to |misses|
        invariant Truthful(w, cache, origins) && stored == i
        invariant findings == BuiltAll(w, misses[..i], failed)
        invariant cache == AfterStores(w, old(cache), misses[..i], failed)
        invariant origins == OriginsAfter(w, old(origins), misses[..i], failed)
      {
        var written, own := StoreAnswer(answers[i], i, f, keys, records, failed);
        if !written {
          return false, findings, i;
        }
        StoresOneMore(w, old(cache), old(origins), misses, i, failed);
        findings := findings + own;
        stored := i + 1;
      }
      assert misses[..|misses|] == misses;
    }

    /** Ask about the misses, hydrate what was mentioned, write back and return what was built. */
    method AnswerMisses(misses: seq<Component>, f: Faults)
      returns (r: Option<seq<Finding>>, posted: seq<Query>, requests: seq<VulnId>, ghost failed: set<VulnId>)
      requires batchSize >= 1 && Sane(w, f) && Truthful(w, cache, origins)
      modifies this`cache, this`origins
      ensures Truthful(w, cache, origins)
      ensures |posted| <= |misses| && (r.Some? ==> |posted| == |misses|)
      ensures forall j :: 0 <= j < |posted| ==> Asks(posted[j], misses[j])
      ensures Serving(f) ==> r.Some?
      ensures r.Some? ==> r.value == BuiltAll(w, misses, failed)
      ensures r.Some? ==> StoredAsBuilt(w, cache, misses, failed)
      ensures r.Some? ==> FailedHere(w, old(cache), f, misses, failed)
      ensures forall k :: k in failed ==> f.recordFails(k)
      ensures OriginsFrom(w, old(origins), misses, failed, origins)
      ensures Distinct(requests)
    {
      requests, failed := [], {};
      var answers;
      answers, posted := FetchMisses(w, f, misses, batchSize);
      if answers == None {
        return None, posted, requests, failed;
      }
      var keys := DistinctVulns(answers.value);
      MentionedIdsSeparatorFree(w, misses, answers.value, keys);
      var records;
      records, requests, failed := HydrateRecords(keys, f);
      ghost var hydrated := cache;
      FailuresAreHere(w, old(cache), f, misses, answers.value, keys, failed);
      var ok, own;
      ghost var stored;
      forall i | 0 <= i < |answers.value| ensures Listed(keys, answers.value[i].vulns) {
        MentionedAreListed(answers.value, keys, i);
      }
      ok, own, stored := StoreAll(misses, answers.value, f, keys, records, failed);
      OriginsByMisses(w, old(origins), misses[..stored], failed);
      assert OriginsFrom(w, old(origins), misses, failed, origins) by {
        OriginsFromMore(w, old(origins), misses[..stored], misses, failed, origins);
      }
      if ok {
        assert misses[..stored] == misses;
        StoredAreHits(w, hydrated, misses, failed);
      }
      return if ok then Some(own) else None, posted, requests, failed;
    }

    /**
     Findings for an SBOM, before aliases are collapsed: what is cached for the hits and what the
     failures left of the rest, for every mix of hits and misses and every chunking. The cache stays
     truthful even when the query fails half way, and no advisory is requested twice.
     */
    method Query(components: seq<SbomComponent>, f: Faults)
      returns (r: Option<seq<Finding>>, posted: seq<Query>, requests: seq<VulnId>, ghost failed: set<VulnId>)
      requires batchSize >= 1 && Sane(w, f) && Truthful(w, cache, origins)
      modifies this`cache, this`origins
      ensures Truthful(w, cache, origins)
      ensures Serving(f) ==> r.Some?
      ensures r.Some? ==> r.value == Answered(w, old(cache), failed, Prepared(components))
      ensures r.Some? ==> StoredAsBuilt(w, cache, MissesOf(w, old(cache), Prepared(components)), failed)
      ensures r.Some? ==> FailedHere(w, old(cache), f, MissesOf(w, old(cache), Prepared(components)), failed)
      ensures forall k :: k in failed ==> f.recordFails(k)
      ensures OriginsFrom(w, old(origins), Prepared(components), failed, origins)
      ensures Distinct(requests)
      ensures PostedFor(w, old(cache), components, posted, r.Some?)
    {
      var cs := PrepareComponents(components);
      ghost var at := MissesExactly(w, cache, components);
      assert PostedAt(w, cache, components, [], at);
      posted, requests, failed := [], [], {};
      var ok, hits, misses := LookUp(cs, f);
      if !ok {
        return None, posted, requests, failed;
      }
      if misses == [] {
        return Some(hits), posted, requests, failed;
      }
      var own;
      own, posted, requests, failed := AnswerMisses(misses, f);
      AskedIsListed(w, old(cache), components, misses, at, posted);
      OriginsOfMisses(w, old(cache), cs, old(origins), failed, origins);
      return if own.Some? then Some(hits + own.value) else None, posted, requests, failed;
    }
  }

  /** No later component has this one's key. */
  ghost predicate LastOfKey(w: World, cs: seq<Component>, j: nat) {
    j < |cs| && forall k :: j < k < |cs| ==> KeyOf(w, cs[k]) != KeyOf(w, cs[j])
  }

  /** Of the misses that share a key, the last is cached. */
  ghost predicate StoredAsBuilt(w: World, cache: Cache, misses: seq<Component>, failed: set<VulnId>) {
    forall j :: 0 <= j < |misses| && LastOfKey(w, misses, j) ==> Hit(w, cache, misses[j]) == Some(Built(w, misses[j], failed))
  }

  /** This answer was built now, for a component asked about. */
  ghost predicate FromNow(w: World, cs: seq<Component>, failed: set<VulnId>, key: string, o: Origin) {
    exists i :: 0 <= i < |cs| && key == KeyOf(w, cs[i]) && o == Origin(cs[i], failed)
  }

  /** Every answer noted was noted before or built now. */
  ghost predicate OriginsFrom(w: World, before: Origins, cs: seq<Component>, failed: set<VulnId>, after: Origins) {
    forall key :: key in after ==> (key in before && after[key] == before[key]) || FromNow(w, cs, failed, key, after[key])
  }

  lemma OriginsFromMore(w: World, before: Origins, cs: seq<Component>, more: seq<Component>, failed: set<VulnId>, after: Origins)
    requires OriginsFrom(w, before, cs, failed, after) && forall c :: c in cs ==> c in more
    ensures OriginsFrom(w, before, more, failed, after)
  {
    forall key | key in after && FromNow(w, cs, failed, key, after[key]) ensures FromNow(w, more, failed, key, after[key]) {
      var j :| 0 <= j < |cs| && key == KeyOf(w, cs[j]) && after[key] == Origin(cs[j], failed);
      assert cs[j] in more;
    }
  }

  lemma OriginsOfMisses(w: World, cache: Cache, cs: seq<Component>, before: Origins, failed: set<VulnId>, after: Origins)
    requires OriginsFrom(w, before, MissesOf(w, cache, cs), failed, after)
    ensures OriginsFrom(w, before, cs, failed, after)
  {
    forall c | c in MissesOf(w, cache, cs) ensures c in cs {
      MissesAreAsked(w, cache, cs, c);
    }
    OriginsFromMore(w, before, MissesOf(w, cache, cs), cs, failed, after);
  }

  // ----- The cache after the write-backs ---------------------------------------------------------

  ghost function AfterStores(w: World, cache: Cache, cs: seq<Component>, failed: set<VulnId>): Cache {
    if cs == [] then cache
    else
      var c := cs[|cs| - 1];
      AfterStores(w, cache, cs[..|cs| - 1], failed)[KeyOf(w, c) := FindingsBlob(Built(w, c, failed))]
  }

  ghost function OriginsAfter(w: World, origins: Origins, cs: seq<Component>, failed: set<VulnId>): Origins {
    if cs == [] then origins
    else
      var c := cs[|cs| - 1];
      OriginsAfter(w, origins, cs[..|cs| - 1], failed)[KeyOf(w, c) := Origin(c, failed)]
  }

  lemma StoresOneMore(w: World, cache: Cache, origins: Origins, cs: seq<Component>, i: nat, failed: set<VulnId>)
    requires i < |cs|
    ensures AfterStores(w, cache, cs[..i + 1], failed) ==
            AfterStores(w, cache, cs[..i], failed)[KeyOf(w, cs[i]) := FindingsBlob(Built(w, cs[i], failed))]
    ensures OriginsAfter(w, origins, cs[..i + 1], failed) ==
            OriginsAfter(w, origins, cs[..i], failed)[KeyOf(w, cs[i]) := Origin(cs[i], failed)]
    ensures BuiltAll(w, cs[..i + 1], failed) == BuiltAll(w, cs[..i], failed) + Built(w, cs[i], failed)
  {
    assert cs[..i + 1][..i] == cs[..i];
  }

  lemma {:induction false} StoredIsHit(w: World, cache: Cache, cs: seq<Component>, failed: set<VulnId>, j: nat)
    requires LastOfKey(w, cs, j)
    ensures Hit(w, AfterStores(w, cache, cs, failed), cs[j]) == Some(Built(w, cs[j], failed))
  {
    if j < |cs| - 1 {
      assert LastOfKey(w, cs[..|cs| - 1], j);
      StoredIsHit(w, cache, cs[..|cs| - 1], failed, j);
    }
  }

  lemma StoredAreHits(w: World, cache: Cache, cs: seq<Component>, failed: set<VulnId>)
    ensures StoredAsBuilt(w, AfterStores(w, cache, cs, failed), cs, failed)
  {
    forall j | 0 <= j < |cs| && LastOfKey(w, cs, j) ensures Hit(w, AfterStores(w, cache, cs, failed), cs[j]) == Some(Built(w, cs[j], failed)) {
      StoredIsHit(w, cache, cs, failed, j);
    }
  }

  lemma {:induction false} OriginsByMisses(w: World, origins: Origins, cs: seq<Component>, failed: set<VulnId>)
    ensures OriginsFrom(w, origins, cs, failed, OriginsAfter(w, origins, cs, failed))
  {
    if cs != [] {
      var front := cs[..|cs| - 1];
      OriginsByMisses(w, origins, front, failed);
      OriginsFromMore(w, origins, front, cs, failed, OriginsAfter(w, origins, front, failed));
      assert FromNow(w, cs, failed, KeyOf(w, cs[|cs| - 1]), Origin(cs[|cs| - 1], failed));
    }
  }

  // ----- Which fetches count as failed -----------------------------------------------------------

  /** An advisory of a missed component that cannot be fetched is among the failures. */
  ghost predicate FailedHere(w: World, before: Cache, f: Faults, misses: seq<Component>, failed: set<VulnId>) {
    forall c, v ::
      (c in misses && v in w.batch(QueryOf(c)) && v.id != [] && Unreachable(w, before, f, IdOf(v)) && Fetched(w, v.id).Some?)
      ==> IdOf(v) in failed
  }

  lemma FailuresAreHere(w: World, before: Cache, f: Faults, misses: seq<Component>, answers: seq<Answer>, keys: seq<VulnId>, failed: set<VulnId>)
    requires AnswersOf(w, misses, answers) && FailuresOf(w, before, f, keys, failed)
    requires forall k :: k in keys <==> k.id != [] && Mentions(answers, k)
    ensures FailedHere(w, before, f, misses, failed)
  {
    forall c, v | c in misses && v in w.batch(QueryOf(c)) && v.id != []
      && Unreachable(w, before, f, IdOf(v)) && Fetched(w, v.id).Some?
      ensures IdOf(v) in failed
    {
      var j :| 0 <= j < |misses| && misses[j] == c;
      var i :| 0 <= i < |answers[j].vulns| && answers[j].vulns[i] == v;
      assert Mentions(answers, IdOf(v));
    }
  }

  lemma MentionedIdsSeparatorFree(w: World, misses: seq<Component>, answers: seq<Answer>, keys: seq<VulnId>)
    requires IdsSeparatorFree(w) && AnswersOf(w, misses, answers)
    requires forall k :: k in keys ==> Mentions(answers, k)
    ensures forall k :: k in keys ==> SeparatorFree(k.id)
  {
    forall k | k in keys ensures SeparatorFree(k.id) {
      var i, j :| 0 <= i < |answers| && 0 <= j < |answers[i].vulns| && k == IdOf(answers[i].vulns[j]);
      assert answers[i].vulns == w.batch(QueryOf(misses[i]));
    }
  }
}

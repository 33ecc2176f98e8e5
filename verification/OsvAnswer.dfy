/** The answer to an advisory query: the findings, one per advisory. */
module OsvAnswer {
  import opened Common
  import opened OsvTypes
  import opened OsvFinding
  import opened OsvSpec
  import opened OsvSbom
  import opened OsvQuery
  import opened OsvHistory
  import opened OsvDegrade
  import opened AliasGraph
  import opened AliasGroups
  import opened AliasCollapse

  method QueryAdvisories(adapter: OsvAdvisoryAdapter, components: seq<SbomComponent>, f: Faults)
    returns (r: Option<seq<Finding>>, posted: seq<Query>, ghost failed: set<VulnId>, ghost groups: seq<seq<nat>>)
    requires adapter.batchSize >= 1 && Sane(adapter.w, f) && Truthful(adapter.w, adapter.cache, adapter.origins)
    modifies adapter`cache, adapter`origins
    ensures Truthful(adapter.w, adapter.cache, adapter.origins)
    ensures r.Some? ==> CollapsedBy(Answered(adapter.w, old(adapter.cache), failed, Prepared(components)), groups, r.value)
    ensures forall k :: k in failed ==> f.recordFails(k)
    ensures Serving(f) ==> r.Some?
    ensures r.Some? ==> StoredAsBuilt(adapter.w, adapter.cache, MissesOf(adapter.w, old(adapter.cache), Prepared(components)), failed)
    ensures OriginsFrom(adapter.w, old(adapter.origins), Prepared(components), failed, adapter.origins)
    ensures PostedFor(adapter.w, old(adapter.cache), components, posted, r.Some?)
    ensures r.Some? ==> FailedHere(adapter.w, old(adapter.cache), f, MissesOf(adapter.w, old(adapter.cache), Prepared(components)), failed)
  {
    var findings, requests;
    findings, posted, requests, failed := adapter.Query(components, f);
    groups := [];
    if findings == None {
      return None, posted, failed, groups;
    }
    var out;
    out, groups := CollapseAliasGroups(findings.value);
    r := Some(out);
  }

  /** A query for one component that is not cached is answered by what is built for it, which is then cached. */
  method AdviseMissing(adapter: OsvAdvisoryAdapter, component: SbomComponent, ghost o: Component, f: Faults)
    returns (r: Option<seq<Finding>>, ghost failed: set<VulnId>, ghost groups: seq<seq<nat>>)
    requires adapter.batchSize >= 1 && Truthful(adapter.w, adapter.cache, adapter.origins)
    requires Sane(adapter.w, f) && Serving(f) && Prepared([component]) == [o] && Hit(adapter.w, adapter.cache, o) == None
    modifies adapter`cache, adapter`origins
    ensures Truthful(adapter.w, adapter.cache, adapter.origins)
    ensures r.Some? && CollapsedBy(Built(adapter.w, o, failed), groups, r.value)
    ensures Hit(adapter.w, adapter.cache, o) == Some(Built(adapter.w, o, failed))
    ensures FailedHere(adapter.w, old(adapter.cache), f, [o], failed) && forall k :: k in failed ==> f.recordFails(k)
  {
    ghost var before := adapter.cache;
    var posted;
    r, posted, failed, groups := QueryAdvisories(adapter, [component], f);
    SingleMiss(adapter.w, before, [o], failed);
    OneStored(adapter.w, adapter.cache, o, failed);
  }

  /** A query for one component that is cached is answered from its entry. */
  method AdviseCached(adapter: OsvAdvisoryAdapter, component: SbomComponent, ghost c: Component, f: Faults)
    returns (r: Option<seq<Finding>>, ghost groups: seq<seq<nat>>)
    requires adapter.batchSize >= 1 && Truthful(adapter.w, adapter.cache, adapter.origins)
    requires Sane(adapter.w, f) && Serving(f) && Prepared([component]) == [c] && Hit(adapter.w, adapter.cache, c).Some?
    modifies adapter`cache, adapter`origins
    ensures r.Some? && CollapsedBy(Hit(adapter.w, old(adapter.cache), c).value, groups, r.value)
  {
    ghost var failed;
    var posted;
    r, posted, failed, groups := QueryAdvisories(adapter, [component], f);
    SingleHit(adapter.w, old(adapter.cache), [c], failed);
  }

  /** Two queries in turn, each for one component: with one key between them, both answers collapse the first one's findings. */
  method AdviseInTurn(w: World, earlier: SbomComponent, ghost o: Component, later: SbomComponent, ghost c: Component, f: Faults)
    returns (first: Option<seq<Finding>>, second: Option<seq<Finding>>,
             ghost failed: set<VulnId>, ghost groups: seq<seq<nat>>, ghost groups': seq<seq<nat>>)
    requires Sane(w, f) && Serving(f)
    requires Prepared([earlier]) == [o] && Prepared([later]) == [c] && KeyOf(w, o) == KeyOf(w, c)
    ensures first.Some? && CollapsedBy(Built(w, o, failed), groups, first.value)
    ensures second.Some? && CollapsedBy(Built(w, o, failed), groups', second.value)
    ensures forall k :: k in failed ==> f.recordFails(k)
  {
    var adapter := new OsvAdvisoryAdapter(w, 1);
    first, failed, groups := AdviseMissing(adapter, earlier, o, f);
    second, groups' := AdviseCached(adapter, later, c, f);
  }

  lemma GroupOf(groups: seq<seq<nat>>, i: nat) returns (a: nat, p: nat)
    requires InSomeGroup(groups, i)
    ensures a < |groups| && p < |groups[a]| && groups[a][p] == i
  {
    a :| 0 <= a < |groups| && i in groups[a];
    p :| 0 <= p < |groups[a]| && groups[a][p] == i;
  }

  /** `f` speaks for `g`: same package, at least as informed, at least its score. */
  ghost predicate SpeaksFor(f: Finding, g: Finding) {
    && f.purl == g.purl && InformationRank(f) >= InformationRank(g)
    && (g.cvssScore.Some? ==> f.cvssScore.Some? && f.cvssScore.value >= g.cvssScore.value)
  }

  lemma SurvivorSpeaksFor(fs: seq<Finding>, groups: seq<seq<nat>>, a: nat, p: nat)
    requires Grouping(AllKeys(fs), groups) && InRange(fs, groups) && a < |groups| && p < |groups[a]|
    ensures SpeaksFor(Survivor(fs, groups[a]), fs[groups[a][p]])
  {
    SurvivorIsBest(fs, groups[a], p);
    SurvivorPackage(fs, groups, a, p);
  }

  lemma MemberIsRepresented(fs: seq<Finding>, groups: seq<seq<nat>>, out: seq<Finding>, f: Finding) returns (a: nat)
    requires CollapsedBy(fs, groups, out) && f in fs
    ensures a < |out| && SpeaksFor(out[a], f)
  {
    var i :| 0 <= i < |fs| && fs[i] == f;
    assert InSomeGroup(groups, i);
    var p;
    a, p := GroupOf(groups, i);
    SurvivorSpeaksFor(fs, groups, a, p);
  }

  /** A naive finding of a source, or of a component asked about where these are the same. */
  ghost predicate Due(w: World, sources: seq<Origin>, cs: seq<Component>, full: Finding) {
    full in NaiveFrom(w, sources) || (Unmixed(w, sources, cs) && full in NaiveAll(w, cs))
  }

  /** A naive finding is in the answer as itself or, where a fetch was lost, unread. */
  lemma SeenInAnswer(w: World, lib: Library, cache: Cache, origins: Origins, failed: set<VulnId>, cs: seq<Component>, full: Finding)
    returns (seen: Finding)
    requires Reads(w, lib) && Truthful(w, cache, origins) && Due(w, Sources(w, cache, origins, failed, cs), cs, full)
    ensures NoMilder(seen, full) && seen in Answered(w, cache, failed, cs)
    ensures AllClean(w, Sources(w, cache, origins, failed, cs)) ==> seen == full
  {
    var sources := Sources(w, cache, origins, failed, cs);
    var built, naive := BuiltFrom(w, sources), NaiveFrom(w, sources);
    AnswerIsArranged(w, cache, origins, failed, cs);
    SourcesNoMilder(w, lib, sources);
    assert full in multiset(naive);
    var i :| 0 <= i < |naive| && naive[i] == full;
    seen := built[i];
    assert seen in multiset(built) && seen in multiset(Answered(w, cache, failed, cs));
    if AllClean(w, sources) {
      CleanIsNaive(w, sources);
    }
  }

  /**
   Caching, batching, failing fetches and collapsing never lose a finding: each naive finding reached
   the collapse as itself or as an unread finding for its package, and that one has a survivor that
   speaks for it.
   */
  lemma EveryFindingIsRepresented(w: World, lib: Library, cache: Cache, origins: Origins, failed: set<VulnId>, cs: seq<Component>,
                                  groups: seq<seq<nat>>, out: seq<Finding>, full: Finding)
    returns (a: nat, seen: Finding)
    requires Reads(w, lib) && Truthful(w, cache, origins) && Due(w, Sources(w, cache, origins, failed, cs), cs, full)
    requires CollapsedBy(Answered(w, cache, failed, cs), groups, out)
    ensures NoMilder(seen, full)
    ensures a < |out| && SpeaksFor(out[a], seen)
    ensures AllClean(w, Sources(w, cache, origins, failed, cs)) ==> seen == full
  {
    seen := SeenInAnswer(w, lib, cache, origins, failed, cs, full);
    a := MemberIsRepresented(Answered(w, cache, failed, cs), groups, out, seen);
  }
}

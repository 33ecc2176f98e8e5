/** What failed fetches can do to a collapsed answer: an unread finding gives way to any sibling that was read. */
module OsvSoften {
  import opened Common
  import opened Text
  import opened OsvTypes
  import opened OsvFinding
  import opened OsvSpec
  import opened OsvQuery
  import opened OsvHistory
  import opened OsvDegrade
  import opened OsvAnswer
  import opened AliasGraph
  import opened AliasGroups
  import opened AliasCollapse
  import opened AliasLimits
  import opened AliasOrder

  // ----- What conversion makes of scores ---------------------------------------------------------

  /** Base scores are on their scale. */
  ghost predicate OnScale(lib: Library) {
    forall vector :: lib.baseScore(vector).Some? ==> 0.0 <= lib.baseScore(vector).value <= 10.0
  }

  /** An uninformed finding has the highest severity, and a score of at least 0.1 decides the severity. */
  ghost predicate Honest(f: Finding) {
    && (InformationRank(f) == 0 ==> f.severity == Critical)
    && (f.cvssScore.Some? ==> f.cvssScore.value <= 10.0)
    && (f.cvssScore.Some? && 0.1 <= f.cvssScore.value ==> CvssScoreToSeverity(f.cvssScore.value) == Some(f.severity))
  }

  ghost predicate AllHonest(fs: seq<Finding>) {
    forall i :: 0 <= i < |fs| ==> Honest(fs[i])
  }

  lemma {:induction false} FirstScoreOnScale(lib: Library, scores: seq<Option<string>>)
    requires OnScale(lib) && FirstScore(lib, scores).Some?
    ensures 0.0 <= FirstScore(lib, scores).value <= 10.0
  {
    if !(scores[0].Some? && lib.baseScore(scores[0].value).Some?) {
      FirstScoreOnScale(lib, scores[1..]);
    }
  }

  lemma ConversionIsHonest(lib: Library, c: Component, v: OsvVuln)
    requires OnScale(lib)
    ensures Honest(VulnToFinding(lib, c, v))
  {
    if FirstScore(lib, v.severity).Some? {
      FirstScoreOnScale(lib, v.severity);
    }
  }

  lemma {:induction false} ConvertedAreHonest(w: World, lib: Library, c: Component, vulns: seq<OsvVuln>)
    requires Reads(w, lib) && OnScale(lib)
    ensures AllHonest(Converted(w, c, vulns, {}))
  {
    if vulns != [] {
      ConvertedAreHonest(w, lib, c, vulns[..|vulns| - 1]);
      ConversionIsHonest(lib, c, Seen(w, {}, vulns[|vulns| - 1]));
    }
  }

  lemma {:induction false} NaiveAreHonest(w: World, lib: Library, sources: seq<Origin>)
    requires Reads(w, lib) && OnScale(lib)
    ensures AllHonest(NaiveFrom(w, sources))
  {
    if sources != [] {
      var c := sources[|sources| - 1].component;
      NaiveAreHonest(w, lib, sources[..|sources| - 1]);
      ConvertedAreHonest(w, lib, c, w.batch(QueryOf(c)));
    }
  }

  lemma DegradedAreHonest(worse: seq<Finding>, full: seq<Finding>)
    requires AllNoMilder(worse, full) && AllHonest(full)
    ensures AllHonest(worse)
  {
    forall i | 0 <= i < |worse| ensures Honest(worse[i]) {
      assert NoMilder(worse[i], full[i]) && Honest(full[i]);
    }
  }

  lemma ShuffledAreHonest(fs: seq<Finding>, arranged: seq<Finding>)
    requires multiset(fs) == multiset(arranged) && AllHonest(arranged)
    ensures AllHonest(fs)
  {
    forall i | 0 <= i < |fs| ensures Honest(fs[i]) {
      assert fs[i] in multiset(arranged);
    }
  }

  lemma AnsweredAreHonest(w: World, lib: Library, cache: Cache, origins: Origins, failed: set<VulnId>, cs: seq<Component>)
    requires Reads(w, lib) && OnScale(lib) && Truthful(w, cache, origins)
    ensures AllHonest(Answered(w, cache, failed, cs))
  {
    var sources := Sources(w, cache, origins, failed, cs);
    NaiveAreHonest(w, lib, sources);
    SourcesNoMilder(w, lib, sources);
    DegradedAreHonest(BuiltFrom(w, sources), NaiveFrom(w, sources));
    AnswerIsArranged(w, cache, origins, failed, cs);
    ShuffledAreHonest(Answered(w, cache, failed, cs), BuiltFrom(w, sources));
  }

  // ----- Exactly when a group is milder than an advisory -----------------------------------------

  /** Member `q` was read and nobody beats it. */
  ghost predicate Decides(fs: seq<Finding>, members: seq<nat>, q: nat)
    requires IsGroup(fs, members)
  {
    && q < |members| && InformationRank(fs[members[q]]) > 0
    && forall r :: 0 <= r < |members| ==> !IsBetterMember(fs[members[r]], fs[members[q]])
  }

  /** Some member that decides the group is milder than `full`. */
  ghost predicate MilderDecides(fs: seq<Finding>, members: seq<nat>, full: Finding)
    requires IsGroup(fs, members)
  {
    exists q :: 0 <= q < |members| && Decides(fs, members, q) && fs[members[q]].severity.Rank() < full.severity.Rank()
  }

  lemma BestUnbeaten(fs: seq<Finding>, members: seq<nat>) returns (b: nat)
    requires IsGroup(fs, members)
    ensures b < |members| && members[b] == BestOf(fs, members)
    ensures forall r :: 0 <= r < |members| ==> !IsBetterMember(fs[members[r]], fs[members[b]])
    ensures Survivor(fs, members).severity == fs[members[b]].severity && Survivor(fs, members).cvssScore == fs[members[b]].cvssScore
  {
    b :| b < |members| && members[b] == BestOf(fs, members);
    forall r | 0 <= r < |members| ensures !IsBetterMember(fs[members[r]], fs[members[b]]) {
      BestIsBest(fs, members, r);
    }
    SurvivorKeepsRecord(fs, members);
  }

  /** The survivor of a group is milder than an advisory if and only if a member that was read, and that nobody beats, is. */
  lemma SoftenedExactly(fs: seq<Finding>, members: seq<nat>, full: Finding)
    requires IsGroup(fs, members) && AllHonest(fs)
    ensures Survivor(fs, members).severity.Rank() < full.severity.Rank() <==> MilderDecides(fs, members, full)
  {
    var b := BestUnbeaten(fs, members);
    if Survivor(fs, members).severity.Rank() < full.severity.Rank() {
      assert Honest(fs[members[b]]);
      assert Decides(fs, members, b);
    }
    if MilderDecides(fs, members, full) {
      var q :| 0 <= q < |members| && Decides(fs, members, q) && fs[members[q]].severity.Rank() < full.severity.Rank();
      BetterTotal(fs[members[b]], fs[members[q]]);
    }
  }

  /** A higher score on the scale is no milder. */
  lemma BandsGrow(low: real, high: real)
    requires 0.1 <= low <= high <= 10.0
    ensures CvssScoreToSeverity(low).Some? && CvssScoreToSeverity(high).Some?
    ensures CvssScoreToSeverity(low).value.Rank() <= CvssScoreToSeverity(high).value.Rank()
  {
  }

  /** A member that was read with a score of at least 0.1 is never given up for a milder one. */
  lemma ScoredIsKept(fs: seq<Finding>, members: seq<nat>, p: nat)
    requires IsGroup(fs, members) && AllHonest(fs) && p < |members|
    requires fs[members[p]].cvssScore.Some? && 0.1 <= fs[members[p]].cvssScore.value
    ensures Survivor(fs, members).severity.Rank() >= fs[members[p]].severity.Rank()
  {
    var b := BestUnbeaten(fs, members);
    SurvivorIsBest(fs, members, p);
    assert Honest(fs[members[b]]) && Honest(fs[members[p]]);
    BandsGrow(fs[members[p]].cvssScore.value, fs[members[b]].cvssScore.value);
  }

  // ----- The collapsed answer --------------------------------------------------------------------

  lemma GroupInRange(fs: seq<Finding>, groups: seq<seq<nat>>, a: nat)
    requires InRange(fs, groups) && a < |groups|
    ensures IsGroup(fs, groups[a])
  {
  }

  lemma MemberOf(fs: seq<Finding>, groups: seq<seq<nat>>, out: seq<Finding>, f: Finding) returns (a: nat, p: nat)
    requires CollapsedBy(fs, groups, out) && f in fs
    ensures a < |out| == |groups| && IsGroup(fs, groups[a]) && p < |groups[a]| && fs[groups[a][p]] == f
    ensures out[a] == Survivor(fs, groups[a])
  {
    var i :| 0 <= i < |fs| && fs[i] == f;
    assert InSomeGroup(groups, i);
    a, p := GroupOf(groups, i);
    GroupInRange(fs, groups, a);
  }

  /**
   Every naive finding reaches the collapse as itself or unread, in some group. The finding returned
   for that group is milder than the naive one if and only if a member that was read, and that nobody
   beats, is milder. If the finding reached the collapse as itself with a score of at least 0.1, it is not.
   */
  lemma AnswerSoftenedExactly(w: World, lib: Library, cache: Cache, origins: Origins, failed: set<VulnId>, cs: seq<Component>,
                              groups: seq<seq<nat>>, out: seq<Finding>, full: Finding)
    returns (a: nat, p: nat, seen: Finding)
    requires Reads(w, lib) && OnScale(lib) && Truthful(w, cache, origins) && Due(w, Sources(w, cache, origins, failed, cs), cs, full)
    requires CollapsedBy(Answered(w, cache, failed, cs), groups, out)
    ensures NoMilder(seen, full) && (AllClean(w, Sources(w, cache, origins, failed, cs)) ==> seen == full)
    ensures a < |out| == |groups| && IsGroup(Answered(w, cache, failed, cs), groups[a])
    ensures p < |groups[a]| && Answered(w, cache, failed, cs)[groups[a][p]] == seen
    ensures out[a].severity.Rank() < full.severity.Rank() <==> MilderDecides(Answered(w, cache, failed, cs), groups[a], full)
    ensures seen == full && seen.cvssScore.Some? && seen.cvssScore.value >= 0.1 ==> out[a].severity.Rank() >= full.severity.Rank()
  {
    var fs := Answered(w, cache, failed, cs);
    seen := SeenInAnswer(w, lib, cache, origins, failed, cs, full);
    a, p := MemberOf(fs, groups, out, seen);
    AnsweredAreHonest(w, lib, cache, origins, failed, cs);
    SoftenedExactly(fs, groups[a], full);
    if seen.cvssScore.Some? && seen.cvssScore.value >= 0.1 {
      ScoredIsKept(fs, groups[a], p);
    }
  }

  // ----- A run that is softened ------------------------------------------------------------------

  lemma MemberNoBetterInformed(fs: seq<Finding>, members: seq<nat>, i: nat)
    requires IsGroup(fs, members)
    requires i in members
    ensures InformationRank(fs[i]) <= InformationRank(fs[BestOf(fs, members)])
  {
    var p :| 0 <= p < |members| && members[p] == i;
    SurvivorIsBest(fs, members, p);
  }

  lemma BestOfPair(fs: seq<Finding>, members: seq<nat>, i: nat, other: nat)
    requires IsGroup(fs, members)
    requires |fs| == 2 && i < 2 && other == 1 - i && i in members && InformationRank(fs[i]) > InformationRank(fs[other])
    ensures BestOf(fs, members) == i
  {
    var best := BestOf(fs, members);
    MemberNoBetterInformed(fs, members, i);
    assert best == i || best == other;
  }

  lemma SurvivorKeepsRecord(fs: seq<Finding>, members: seq<nat>)
    requires IsGroup(fs, members)
    ensures Survivor(fs, members) == fs[BestOf(fs, members)].(aliases := Survivor(fs, members).aliases)
  {
    SurvivorIsBest(fs, members, 0);
  }

  lemma OneSurvivor(fs: seq<Finding>, groups: seq<seq<nat>>, out: seq<Finding>, name: string)
    requires fs != [] && OneName(fs, fs[0].purl, name) && CollapsedBy(fs, groups, out)
    ensures |out| == |groups| == 1 && IsGroup(fs, groups[0]) && out[0] == Survivor(fs, groups[0])
    ensures forall i: nat :: i < |fs| ==> i in groups[0]
  {
    OneNameOneGroup(fs, groups, fs[0].purl, name);
    GroupInRange(fs, groups, 0);
  }

  lemma PairSurvivor(fs: seq<Finding>, members: seq<nat>, i: nat)
    requires IsGroup(fs, members) && |fs| == 2 && i < 2 && i in members && InformationRank(fs[i]) > InformationRank(fs[1 - i])
    ensures Survivor(fs, members) == fs[i].(aliases := Survivor(fs, members).aliases)
  {
    BestOfPair(fs, members, i, 1 - i);
    SurvivorKeepsRecord(fs, members);
  }

  /** Two findings under one name collapse to the better informed. */
  lemma PairCollapses(fs: seq<Finding>, groups: seq<seq<nat>>, out: seq<Finding>, name: string, i: nat)
    requires |fs| == 2 && i < 2 && OneName(fs, fs[0].purl, name) && CollapsedBy(fs, groups, out)
    requires InformationRank(fs[i]) > InformationRank(fs[1 - i])
    ensures |out| == 1 && out[0] == fs[i].(aliases := out[0].aliases)
  {
    OneSurvivor(fs, groups, out, name);
    PairSurvivor(fs, groups[0], i);
  }

  /**
   Where a scored record mirrors an informational one, the score survives if it was read and only the
   informational record if it was not.
   */
  lemma FailureCanSoften(scored: Finding, unread: Finding, informational: Finding, name: string,
                         groups: seq<seq<nat>>, out: seq<Finding>, groups': seq<seq<nat>>, out': seq<Finding>)
    requires scored.cvssScore.Some? && Unread(unread) && IsInformational(informational)
    requires OneName([scored, informational], scored.purl, name) && OneName([unread, informational], unread.purl, name)
    requires CollapsedBy([scored, informational], groups, out) && CollapsedBy([unread, informational], groups', out')
    ensures |out| == 1 && out[0] == scored.(aliases := out[0].aliases)
    ensures |out'| == 1 && out'[0] == informational.(aliases := out'[0].aliases)
  {
    PairCollapses([scored, informational], groups, out, name, 0);
    PairCollapses([unread, informational], groups', out', name, 1);
  }

  lemma PairBuilt(w: World, c: Component, a: OsvVuln, b: OsvVuln, failed: set<VulnId>)
    requires w.batch(QueryOf(c)) == [a, b]
    ensures Built(w, c, failed) == [w.convert(c, Seen(w, failed, a)), w.convert(c, Seen(w, failed, b))]
  {
    assert [a, b][..1] == [a] && [a][..0] == [];
    assert Converted(w, c, [], failed) == [] && Converted(w, c, [a], failed) == [w.convert(c, Seen(w, failed, a))];
  }

  /** A query for one component that is not cached is answered by what is built for it. */
  method AskOnce(w: World, component: SbomComponent, ghost c: Component, f: Faults)
    returns (r: Option<seq<Finding>>, ghost failed: set<VulnId>, ghost groups: seq<seq<nat>>)
    requires Sane(w, f) && Serving(f) && Prepared([component]) == [c]
    ensures r.Some? && CollapsedBy(Built(w, c, failed), groups, r.value)
    ensures forall k :: k in failed ==> f.recordFails(k)
    ensures FailedHere(w, map[], f, [c], failed)
  {
    var adapter := new OsvAdvisoryAdapter(w, 1);
    r, failed, groups := AdviseMissing(adapter, component, c, f);
  }

  /** The advisories of the witness: `a` is scored, `b` is informational and lists `a` as an alias. */
  ghost predicate Mirrored(w: World, lib: Library, c: Component, a: OsvVuln, b: OsvVuln, fullA: OsvVuln, fullB: OsvVuln) {
    && Reads(w, lib) && w.batch(QueryOf(c)) == [a, b] && a.id != [] && b.id != [] && a.id != b.id
    && Fetched(w, a.id) == Some(fullA) && Fetched(w, b.id) == Some(fullB) && fullA.id == a.id
    && FirstScore(lib, fullA.severity).Some? && IsInformational(VulnToFinding(lib, c, fullB))
    && Names(IdsOf(VulnToFinding(lib, c, fullB)), Norm(a.id))
  }

  lemma MirrorsShareName(w: World, lib: Library, c: Component, a: OsvVuln, b: OsvVuln, fullA: OsvVuln, fullB: OsvVuln, v: OsvVuln)
    requires Mirrored(w, lib, c, a, b, fullA, fullB) && v.id == a.id
    ensures OneName([VulnToFinding(lib, c, v), VulnToFinding(lib, c, fullB)], c.purl, Norm(a.id))
  {
    assert IdsOf(VulnToFinding(lib, c, v))[0] == a.id;
    PairSharesName(VulnToFinding(lib, c, v), VulnToFinding(lib, c, fullB), Norm(a.id));
  }

  lemma PairSharesName(f: Finding, g: Finding, name: string)
    requires f.purl == g.purl && Names(IdsOf(f), name) && Names(IdsOf(g), name)
    ensures OneName([f, g], f.purl, name)
  {
  }

  lemma BuiltDuringOutage(w: World, lib: Library, c: Component, a: OsvVuln, b: OsvVuln, fullA: OsvVuln, fullB: OsvVuln,
                          outage: Faults, failed: set<VulnId>)
    requires Mirrored(w, lib, c, a, b, fullA, fullB) && (forall k :: outage.recordFails(k) <==> k.id == a.id)
    requires (forall k :: k in failed ==> outage.recordFails(k)) && FailedHere(w, map[], outage, [c], failed)
    ensures Built(w, c, failed) == [VulnToFinding(lib, c, a), VulnToFinding(lib, c, fullB)]
    ensures Unread(VulnToFinding(lib, c, a))
  {
    PairBuilt(w, c, a, b, failed);
    assert c in [c] && a in w.batch(QueryOf(c)) && Unreachable(w, map[], outage, IdOf(a));
    assert w.batch(QueryOf(c))[0] == a;
    BareIsUnread(lib, c, a);
  }

  lemma MirroredSeverities(lib: Library, c: Component, fullA: OsvVuln, fullB: OsvVuln)
    requires FirstScore(lib, fullA.severity).Some? && 4.0 <= FirstScore(lib, fullA.severity).value <= 10.0
    requires IsInformational(VulnToFinding(lib, c, fullB)) && ReadLabel(fullB) == None
    ensures VulnToFinding(lib, c, fullB).severity.Rank() < VulnToFinding(lib, c, fullA).severity.Rank()
  {
    BelowTierExactlyWhen(lib, c, fullA, 1);
    BelowTierExactlyWhen(lib, c, fullB, 1);
  }

  /**
   Two queries to fresh adapters over the same feed. Without a fault the answer is the scored advisory;
   with its fetch failing it is the informational mirror, which has no score and, where the score is
   above the lowest band and the mirror has no label, is milder.
   */
  method OutageSoftens(w: World, ghost lib: Library, component: SbomComponent, ghost c: Component,
                       ghost a: OsvVuln, ghost b: OsvVuln, ghost fullA: OsvVuln, ghost fullB: OsvVuln, outage: Faults, calm: Faults)
    returns (during: Option<seq<Finding>>, healthy: Option<seq<Finding>>)
    requires Sane(w, outage) && Sane(w, calm) && Serving(outage) && Serving(calm)
    requires Prepared([component]) == [c] && Mirrored(w, lib, c, a, b, fullA, fullB)
    requires forall k :: outage.recordFails(k) <==> k.id == a.id
    requires forall k :: !calm.recordFails(k)
    ensures healthy.Some? && |healthy.value| == 1 && healthy.value[0].cvssScore == FirstScore(lib, fullA.severity)
    ensures during.Some? && |during.value| == 1 && IsInformational(during.value[0])
    ensures 4.0 <= FirstScore(lib, fullA.severity).value <= 10.0 && ReadLabel(fullB) == None
            ==> during.value[0].severity.Rank() < healthy.value[0].severity.Rank()
  {
    ghost var failed, groups, failed', groups';
    healthy, failed, groups := AskOnce(w, component, c, calm);
    during, failed', groups' := AskOnce(w, component, c, outage);
    PairBuilt(w, c, a, b, failed);
    BuiltDuringOutage(w, lib, c, a, b, fullA, fullB, outage, failed');
    MirrorsShareName(w, lib, c, a, b, fullA, fullB, fullA);
    MirrorsShareName(w, lib, c, a, b, fullA, fullB, a);
    FailureCanSoften(VulnToFinding(lib, c, fullA), VulnToFinding(lib, c, a), VulnToFinding(lib, c, fullB), Norm(a.id),
                     groups, healthy.value, groups', during.value);
    if 4.0 <= FirstScore(lib, fullA.severity).value <= 10.0 && ReadLabel(fullB) == None {
      MirroredSeverities(lib, c, fullA, fullB);
    }
  }
}

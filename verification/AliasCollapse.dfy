/** Collapsing a finding set to one finding per advisory. */
module AliasCollapse {
  import opened Text
  import opened OsvTypes
  import opened OsvFinding
  import opened AliasGraph
  import opened AliasGroups

  // ----- One group -------------------------------------------------------------------------------

  function Insert(f: Finding, sorted: seq<Finding>): seq<Finding> {
    if sorted == [] || LexLeq(f.vulnerabilityId, sorted[0].vulnerabilityId) then [f] + sorted
    else [sorted[0]] + Insert(f, sorted[1..])
  }

  /** Stable order by identifier. */
  function SortById(fs: seq<Finding>): seq<Finding> {
    if fs == [] then [] else Insert(fs[0], SortById(fs[1..]))
  }

  ghost predicate SortedById(fs: seq<Finding>) {
    forall i, j :: 0 <= i < j < |fs| ==> LexLeq(fs[i].vulnerabilityId, fs[j].vulnerabilityId)
  }

  lemma {:induction false} InsertFacts(f: Finding, sorted: seq<Finding>)
    ensures multiset(Insert(f, sorted)) == multiset(sorted) + multiset{f}
    ensures SortedById(sorted) ==> SortedById(Insert(f, sorted))
  {
    if sorted == [] || LexLeq(f.vulnerabilityId, sorted[0].vulnerabilityId) {
      if SortedById(sorted) {
        forall j | 0 <= j < |sorted| ensures LexLeq(f.vulnerabilityId, sorted[j].vulnerabilityId) {
          if j > 0 {
            LexTransitive(f.vulnerabilityId, sorted[0].vulnerabilityId, sorted[j].vulnerabilityId);
          }
        }
      }
    } else {
      var rest := Insert(f, sorted[1..]);
      InsertFacts(f, sorted[1..]);
      assert sorted == [sorted[0]] + sorted[1..];
      LexTotal(f.vulnerabilityId, sorted[0].vulnerabilityId);
      if SortedById(sorted) {
        forall j | 0 <= j < |rest| ensures LexLeq(sorted[0].vulnerabilityId, rest[j].vulnerabilityId) {
          assert rest[j] in multiset(rest);
          if rest[j] != f {
            assert rest[j] in sorted[1..];
          }
        }
      }
    }
  }

  lemma {:induction false} SortFacts(fs: seq<Finding>)
    ensures multiset(SortById(fs)) == multiset(fs) && SortedById(SortById(fs))
  {
    if fs != [] {
      SortFacts(fs[1..]);
      InsertFacts(fs[0], SortById(fs[1..]));
      assert fs == [fs[0]] + fs[1..];
    }
  }

  function OthersOf(fs: seq<Finding>, members: seq<nat>, winner: nat): seq<Finding>
    requires forall p :: 0 <= p < |members| ==> members[p] < |fs|
  {
    if members == [] then []
    else
      OthersOf(fs, members[..|members| - 1], winner)
      + if members[|members| - 1] == winner then [] else [fs[members[|members| - 1]]]
  }

  /** The survivor of a group; a group of one is returned as it is. */
  function Survivor(fs: seq<Finding>, members: seq<nat>): Finding
    requires members != [] && forall p :: 0 <= p < |members| ==> members[p] < |fs|
  {
    if |members| == 1 then fs[members[0]]
    else
      var w := BestOf(fs, members);
      fs[w].(aliases := Unioned(fs[w], SortById(OthersOf(fs, members, w))))
  }

  method CollapseOneGroup(fs: seq<Finding>, members: seq<nat>) returns (survivor: Finding)
    requires members != [] && forall p :: 0 <= p < |members| ==> members[p] < |fs|
    ensures survivor == Survivor(fs, members)
  {
    if |members| == 1 {
      return fs[members[0]];
    }
    var winner := members[0];
    for p := 1 to |members|
      invariant winner == BestOf(fs, members[..p])
    {
      assert members[..p + 1][..p] == members[..p];
      if IsBetterMember(fs[members[p]], fs[winner]) {
        winner := members[p];
      }
    }
    assert members[..|members|] == members;
    var others: seq<Finding> := [];
    for p := 0 to |members|
      invariant others == OthersOf(fs, members[..p], winner)
    {
      assert members[..p + 1][..p] == members[..p];
      if members[p] != winner {
        others := others + [fs[members[p]]];
      }
    }
    var aliases := UnionAliases(fs[winner], SortById(others));
    survivor := fs[winner].(aliases := aliases);
  }

  // ----- The whole set ---------------------------------------------------------------------------

  ghost predicate InRange(fs: seq<Finding>, groups: seq<seq<nat>>) {
    forall a :: 0 <= a < |groups| ==> groups[a] != [] && forall p :: 0 <= p < |groups[a]| ==> groups[a][p] < |fs|
  }

  /** `out` holds the survivor of every component, in order of appearance. */
  ghost predicate CollapsedBy(fs: seq<Finding>, groups: seq<seq<nat>>, out: seq<Finding>) {
    && Grouping(AllKeys(fs), groups) && InRange(fs, groups) && |out| == |groups|
    && forall a :: 0 <= a < |out| ==> out[a] == Survivor(fs, groups[a])
  }

  method CollapseAliasGroups(fs: seq<Finding>) returns (out: seq<Finding>, ghost groups: seq<seq<nat>>)
    ensures CollapsedBy(fs, groups, out)
    ensures |fs| < 2 ==> out == fs
  {
    var grouped := GroupItems(AllKeys(fs));
    groups := grouped;
    out := [];
    for a := 0 to |grouped|
      invariant |out| == a && forall b :: 0 <= b < a ==> out[b] == Survivor(fs, grouped[b])
    {
      var survivor := CollapseOneGroup(fs, grouped[a]);
      out := out + [survivor];
    }
    if |fs| < 2 {
      UnlinkedAreSingletons(AllKeys(fs), groups);
    }
  }

  // ----- What survives ---------------------------------------------------------------------------

  /** The survivor is the best-informed member: it keeps everything but the alias list from its record. */
  lemma SurvivorIsBest(fs: seq<Finding>, members: seq<nat>, p: nat)
    requires members != [] && forall p :: 0 <= p < |members| ==> members[p] < |fs|
    requires p < |members|
    ensures var s, w := Survivor(fs, members), fs[BestOf(fs, members)];
            && s == w.(aliases := s.aliases)
            && !IsBetterMember(fs[members[p]], w)
            && (fs[members[p]].cvssScore.Some? ==> s.cvssScore.Some? && s.cvssScore.value >= fs[members[p]].cvssScore.value)
            && (InformationRank(fs[members[p]]) <= InformationRank(w))
  {
    BestIsBest(fs, members, p);
    if |members| == 1 {
      assert fs[members[0]] == fs[members[0]].(aliases := fs[members[0]].aliases);
    }
  }

  /** Both have a score, or both are informational, or both are merely assessed, or neither. */
  predicate SameStanding(s: Finding, f: Finding) {
    if s.cvssScore.Some? || f.cvssScore.Some? then s.cvssScore.Some? && f.cvssScore.Some?
    else if IsInformational(s) || IsInformational(f) then IsInformational(s) && IsInformational(f)
    else s.assessed == f.assessed
  }

  /**
   A scored member is survived by a scored one, without scores an informational member by an informational
   one, and without either an assessed member by an assessed one. Of members with that standing the
   survivor has the highest score, of these the highest severity, and of these the first identifier.
   */
  lemma SurvivorStandsFirst(fs: seq<Finding>, members: seq<nat>, p: nat)
    requires members != [] && forall p :: 0 <= p < |members| ==> members[p] < |fs|
    requires p < |members|
    ensures var s, f := Survivor(fs, members), fs[members[p]];
            && (f.cvssScore.Some? ==> s.cvssScore.Some? && s.cvssScore.value >= f.cvssScore.value)
            && (IsInformational(f) ==> s.cvssScore.Some? || IsInformational(s))
            && (f.assessed ==> s.cvssScore.Some? || IsInformational(s) || s.assessed)
            && (SameStanding(s, f) && s.cvssScore == f.cvssScore ==>
                  && s.severity.Rank() >= f.severity.Rank()
                  && (s.severity == f.severity ==> LexLeq(s.vulnerabilityId, f.vulnerabilityId)))
  {
    SurvivorIsBest(fs, members, p);
    var s, f := fs[BestOf(fs, members)], fs[members[p]];
    LexTotal(s.vulnerabilityId, f.vulnerabilityId);
    LexReflexive(s.vulnerabilityId);
  }

  ghost predicate Holds(fs: seq<Finding>, members: seq<nat>, f: Finding)
    requires forall p :: 0 <= p < |members| ==> members[p] < |fs|
  {
    exists p :: 0 <= p < |members| && fs[members[p]] == f
  }

  /** Two groups of the same findings have survivors that read the same. */
  lemma SurvivorIgnoresOrder(fs: seq<Finding>, members: seq<nat>, fs': seq<Finding>, members': seq<nat>)
    requires members != [] && forall p :: 0 <= p < |members| ==> members[p] < |fs|
    requires members' != [] && forall p :: 0 <= p < |members'| ==> members'[p] < |fs'|
    requires forall f :: Holds(fs, members, f) <==> Holds(fs', members', f)
    ensures SameReading(fs[BestOf(fs, members)], fs'[BestOf(fs', members')])
  {
    var w, w' := fs[BestOf(fs, members)], fs'[BestOf(fs', members')];
    assert Holds(fs, members, w) && Holds(fs', members', w');
    var p :| 0 <= p < |members| && fs[members[p]] == w';
    var q :| 0 <= q < |members'| && fs'[members'[q]] == w;
    BestIsBest(fs, members, p);
    BestIsBest(fs', members', q);
    BetterTotal(w, w');
  }

  // ----- Collapsing again ------------------------------------------------------------------------

  lemma LinkedSamePackage(fs: seq<Finding>, i: nat, j: nat)
    requires Linked(AllKeys(fs), i, j)
    ensures fs[i].purl == fs[j].purl
  {
    var k :| k in AllKeys(fs)[i] && k in AllKeys(fs)[j];
    KeysMeaning(fs[i].purl, IdsOf(fs[i]), k);
    KeysMeaning(fs[j].purl, IdsOf(fs[j]), k);
  }

  lemma {:induction false} PathSamePackage(fs: seq<Finding>, p: seq<nat>, i: nat, j: nat)
    requires IsPath(AllKeys(fs), p, i, j)
    ensures fs[i].purl == fs[j].purl
    decreases p
  {
    if |p| > 1 {
      PathFront(AllKeys(fs), p, i, j);
      PathSamePackage(fs, p[..|p| - 1], i, p[|p| - 2]);
      LinkedSamePackage(fs, p[|p| - 2], j);
    }
  }

  lemma GroupSamePackage(fs: seq<Finding>, groups: seq<seq<nat>>, a: nat, p: nat, q: nat)
    requires Grouping(AllKeys(fs), groups) && InRange(fs, groups) && a < |groups| && p < |groups[a]| && q < |groups[a]|
    ensures fs[groups[a][p]].purl == fs[groups[a][q]].purl
  {
    assert Connected(AllKeys(fs), groups[a][p], groups[a][q]);
    var path :| IsPath(AllKeys(fs), path, groups[a][p], groups[a][q]);
    PathSamePackage(fs, path, groups[a][p], groups[a][q]);
  }

  lemma {:induction false} OthersAreMembers(fs: seq<Finding>, members: seq<nat>, winner: nat, f: Finding)
    requires forall p :: 0 <= p < |members| ==> members[p] < |fs|
    requires f in OthersOf(fs, members, winner)
    ensures exists p :: 0 <= p < |members| && fs[members[p]] == f
  {
    var n := |members| - 1;
    if f in OthersOf(fs, members[..n], winner) {
      OthersAreMembers(fs, members[..n], winner, f);
      var p :| 0 <= p < n && fs[members[..n][p]] == f;
      assert fs[members[p]] == f;
    } else {
      assert fs[members[n]] == f;
    }
  }

  lemma {:induction false} AliasesInMeaning(others: seq<Finding>, name: string)
    requires Names(AliasesIn(others), name)
    ensures exists k :: 0 <= k < |others| && Names(others[k].aliases, name)
  {
    var head, tail := others[0].aliases, AliasesIn(others[1..]);
    var i :| 0 <= i < |head + tail| && Norm((head + tail)[i]) == name;
    if i < |head| {
      assert Norm(head[i]) == name && Names(others[0].aliases, name);
    } else {
      assert Norm(tail[i - |head|]) == name;
      AliasesInMeaning(others[1..], name);
      var k :| 0 <= k < |others[1..]| && Names(others[1..][k].aliases, name);
      assert Names(others[k + 1].aliases, name);
    }
  }

  lemma AliasIsName(f: Finding, name: string)
    requires Names(f.aliases, name)
    ensures Names(IdsOf(f), name)
  {
    NamesCons(IdsOf(f), name);
    assert IdsOf(f)[1..] == f.aliases;
  }

  /** A name in the union was a candidate. */
  lemma UnionedFrom(winner: Finding, others: seq<Finding>, name: string)
    requires Names(Unioned(winner, others), name)
    ensures Names(PrimaryIds(others), name) || Names(winner.aliases, name) || Names(AliasesIn(others), name)
  {
    var own := winner.vulnerabilityId;
    var first := Pushed(own, [], PrimaryIds(others));
    PushedFacts(own, [], PrimaryIds(others));
    var second := Pushed(own, first, winner.aliases);
    PushedFacts(own, first, winner.aliases);
    PushedFacts(own, second, AliasesIn(others));
    assert !Names([], name);
  }

  /** Every name in the union is one the survivor or a collapsed member already had. */
  lemma UnionedNames(winner: Finding, others: seq<Finding>, name: string)
    requires Names(Unioned(winner, others), name)
    ensures Names(IdsOf(winner), name) || exists k :: 0 <= k < |others| && Names(IdsOf(others[k]), name)
  {
    UnionedFrom(winner, others, name);
    if Names(PrimaryIds(others), name) {
      var k :| 0 <= k < |others| && Norm(PrimaryIds(others)[k]) == name;
      assert Norm(IdsOf(others[k])[0]) == name && Names(IdsOf(others[k]), name);
    } else if Names(winner.aliases, name) {
      AliasIsName(winner, name);
    } else {
      AliasesInMeaning(others, name);
      var k :| 0 <= k < |others| && Names(others[k].aliases, name);
      AliasIsName(others[k], name);
    }
  }

  /** A name of the survivor is a name of a member. */
  lemma SurvivorNames(fs: seq<Finding>, members: seq<nat>, name: string) returns (p: nat)
    requires members != [] && forall p :: 0 <= p < |members| ==> members[p] < |fs|
    requires Names(IdsOf(Survivor(fs, members)), name)
    ensures p < |members| && Names(IdsOf(fs[members[p]]), name)
  {
    if |members| == 1 {
      p := 0;
    } else {
      var w := BestOf(fs, members);
      var others := SortById(OthersOf(fs, members, w));
      var s := Survivor(fs, members);
      NamesCons(IdsOf(s), name);
      assert IdsOf(s)[1..] == Unioned(fs[w], others);
      p :| 0 <= p < |members| && members[p] == w;
      NamesCons(IdsOf(fs[w]), name);
      if Names(Unioned(fs[w], others), name) && !Names(IdsOf(fs[w]), name) {
        UnionedNames(fs[w], others, name);
        var k :| 0 <= k < |others| && Names(IdsOf(others[k]), name);
        SortFacts(OthersOf(fs, members, w));
        assert others[k] in multiset(others);
        OthersAreMembers(fs, members, w, others[k]);
        p :| 0 <= p < |members| && fs[members[p]] == others[k];
      }
    }
  }

  lemma SurvivorPackage(fs: seq<Finding>, groups: seq<seq<nat>>, a: nat, p: nat)
    requires Grouping(AllKeys(fs), groups) && InRange(fs, groups) && a < |groups| && p < |groups[a]|
    ensures Survivor(fs, groups[a]).purl == fs[groups[a][p]].purl
  {
    var w := BestOf(fs, groups[a]);
    var q :| 0 <= q < |groups[a]| && groups[a][q] == w;
    GroupSamePackage(fs, groups, a, p, q);
  }

  /** A key of a survivor is a key of one of its members. */
  lemma SurvivorKeys(fs: seq<Finding>, groups: seq<seq<nat>>, a: nat, k: Key) returns (p: nat)
    requires Grouping(AllKeys(fs), groups) && InRange(fs, groups) && a < |groups|
    requires k in KeysOf(Survivor(fs, groups[a]))
    ensures p < |groups[a]| && k in AllKeys(fs)[groups[a][p]]
  {
    var s := Survivor(fs, groups[a]);
    KeysMeaning(s.purl, IdsOf(s), k);
    p := SurvivorNames(fs, groups[a], k.1);
    SurvivorPackage(fs, groups, a, p);
    var f := fs[groups[a][p]];
    KeysMeaning(f.purl, IdsOf(f), k);
  }

  lemma SurvivorsUnlinked(fs: seq<Finding>, groups: seq<seq<nat>>, out: seq<Finding>, a: nat, b: nat)
    requires CollapsedBy(fs, groups, out) && a < |out| && b < |out| && Linked(AllKeys(out), a, b)
    ensures a == b
  {
    var k :| k in AllKeys(out)[a] && k in AllKeys(out)[b];
    var p := SurvivorKeys(fs, groups, a, k);
    var q := SurvivorKeys(fs, groups, b, k);
    assert Linked(AllKeys(fs), groups[a][p], groups[b][q]);
    LinkedConnected(AllKeys(fs), groups[a][p], groups[b][q]);
  }

  /** Collapsing a collapsed set changes nothing. */
  lemma CollapseIsIdempotent(fs: seq<Finding>, groups: seq<seq<nat>>, once: seq<Finding>, groups': seq<seq<nat>>, twice: seq<Finding>)
    requires CollapsedBy(fs, groups, once) && CollapsedBy(once, groups', twice)
    ensures twice == once
  {
    forall a, b | 0 <= a < |once| && 0 <= b < |once| && a != b ensures !Linked(AllKeys(once), a, b) {
      if Linked(AllKeys(once), a, b) {
        SurvivorsUnlinked(fs, groups, once, a, b);
      }
    }
    UnlinkedAreSingletons(AllKeys(once), groups');
  }
}

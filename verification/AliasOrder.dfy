/** What the order in which a group's findings arrive can change. */
module AliasOrder {
  import opened Common
  import opened Text
  import opened OsvTypes
  import opened AliasGraph
  import opened AliasGroups
  import opened AliasCollapse
  import opened AliasLimits
  import opened AliasUnion

  ghost predicate IsGroup(fs: seq<Finding>, members: seq<nat>) {
    members != [] && forall p :: 0 <= p < |members| ==> members[p] < |fs|
  }

  // ----- The record that is kept -----------------------------------------------------------------

  /** `ms` lists the same members in some order. */
  ghost predicate Rearranges(fs: seq<Finding>, ms: seq<nat>, members: seq<nat>) {
    IsGroup(fs, ms) && multiset(ms) == multiset(members)
  }

  /** Whoever compares equal to the best member is the same finding. */
  ghost predicate TwinsAgree(fs: seq<Finding>, members: seq<nat>)
    requires IsGroup(fs, members)
  {
    forall p :: 0 <= p < |members| && SameReading(fs[members[p]], fs[BestOf(fs, members)]) ==> fs[members[p]] == fs[BestOf(fs, members)]
  }

  /** A first member that nobody beats is kept. */
  lemma {:induction false} FirstUnbeatenWins(fs: seq<Finding>, ms: seq<nat>)
    requires IsGroup(fs, ms) && forall p :: 0 <= p < |ms| ==> !IsBetterMember(fs[ms[p]], fs[ms[0]])
    ensures BestOf(fs, ms) == ms[0]
    decreases ms
  {
    if |ms| > 1 {
      FirstUnbeatenWins(fs, ms[..|ms| - 1]);
    }
  }

  lemma TwinUnbeaten(f: Finding, best: Finding, twin: Finding)
    requires SameReading(twin, best) && !IsBetterMember(f, best)
    ensures !IsBetterMember(f, twin)
  {
  }

  /** The members with the `p`th first. */
  function Led(members: seq<nat>, p: nat): (ms: seq<nat>)
    requires p < |members|
    ensures multiset(ms) == multiset(members) && ms != [] && ms[0] == members[p]
  {
    assert members == members[..p] + [members[p]] + members[p + 1..];
    [members[p]] + members[..p] + members[p + 1..]
  }

  lemma RearrangedMember(fs: seq<Finding>, ms: seq<nat>, members: seq<nat>, q: nat) returns (p: nat)
    requires IsGroup(fs, members) && multiset(ms) == multiset(members) && q < |ms|
    ensures p < |members| && members[p] == ms[q]
  {
    assert ms[q] in multiset(members);
    p :| p < |members| && members[p] == ms[q];
  }

  lemma TwinCanLead(fs: seq<Finding>, members: seq<nat>, p: nat)
    requires IsGroup(fs, members) && p < |members| && SameReading(fs[members[p]], fs[BestOf(fs, members)])
    ensures Rearranges(fs, Led(members, p), members) && BestOf(fs, Led(members, p)) == members[p]
  {
    var ms := Led(members, p);
    forall q | 0 <= q < |ms| ensures ms[q] < |fs| && !IsBetterMember(fs[ms[q]], fs[ms[0]]) {
      var r := RearrangedMember(fs, ms, members, q);
      BestIsBest(fs, members, r);
      TwinUnbeaten(fs[ms[q]], fs[BestOf(fs, members)], fs[members[p]]);
    }
    FirstUnbeatenWins(fs, ms);
  }

  lemma RearrangedHolds(fs: seq<Finding>, ms: seq<nat>, members: seq<nat>, f: Finding)
    requires IsGroup(fs, ms) && IsGroup(fs, members) && multiset(ms) == multiset(members) && Holds(fs, ms, f)
    ensures Holds(fs, members, f)
  {
    var q :| 0 <= q < |ms| && fs[ms[q]] == f;
    var p := RearrangedMember(fs, ms, members, q);
    assert fs[members[p]] == f;
  }

  lemma RearrangedBest(fs: seq<Finding>, ms: seq<nat>, members: seq<nat>)
    requires IsGroup(fs, members) && Rearranges(fs, ms, members) && TwinsAgree(fs, members)
    ensures fs[BestOf(fs, ms)] == fs[BestOf(fs, members)]
  {
    forall f ensures Holds(fs, ms, f) <==> Holds(fs, members, f) {
      if Holds(fs, ms, f) {
        RearrangedHolds(fs, ms, members, f);
      }
      if Holds(fs, members, f) {
        RearrangedHolds(fs, members, ms, f);
      }
    }
    SurvivorIgnoresOrder(fs, ms, fs, members);
    var q: nat :| q < |ms| && ms[q] == BestOf(fs, ms);
    var p := RearrangedMember(fs, ms, members, q);
    assert SameReading(fs[members[p]], fs[BestOf(fs, members)]);
  }

  /**
   The record a group keeps is the same in every order of arrival if and only if every member that
   compares equal to the best is the same finding.
   */
  lemma RecordIsOrderFreeExactly(fs: seq<Finding>, members: seq<nat>)
    requires IsGroup(fs, members)
    ensures (forall ms :: Rearranges(fs, ms, members) ==> fs[BestOf(fs, ms)] == fs[BestOf(fs, members)]) <==> TwinsAgree(fs, members)
  {
    if TwinsAgree(fs, members) {
      forall ms | Rearranges(fs, ms, members) ensures fs[BestOf(fs, ms)] == fs[BestOf(fs, members)] {
        RearrangedBest(fs, ms, members);
      }
    } else {
      var p: nat :| p < |members| && SameReading(fs[members[p]], fs[BestOf(fs, members)]) && fs[members[p]] != fs[BestOf(fs, members)];
      TwinCanLead(fs, members, p);
      assert Rearranges(fs, Led(members, p), members);
    }
  }

  // ----- Two orders, two answers -----------------------------------------------------------------

  function Twin(title: string): Finding {
    Finding("pkg", "id", High, None, title, [], [], [], None, true, None)
  }

  lemma PairInOrder(fs: seq<Finding>, groups: seq<seq<nat>>)
    requires |fs| == 2 && OneName(fs, "pkg", Norm("id")) && Grouping(AllKeys(fs), groups) && InRange(fs, groups)
    ensures groups == [[0, 1]]
  {
    OneNameOneGroup(fs, groups, "pkg", Norm("id"));
    assert 0 in groups[0] && 1 in groups[0];
    BothInOrder(groups[0]);
  }

  lemma BothInOrder(g: seq<nat>)
    requires Increasing(g) && 0 in g && 1 in g && forall p :: 0 <= p < |g| ==> g[p] < 2
    ensures g == [0, 1]
  {
    var p :| 0 <= p < |g| && g[p] == 0;
    var q :| 0 <= q < |g| && g[q] == 1;
    AtLeastPosition(g, |g| - 1);
  }

  lemma {:induction false} AtLeastPosition(g: seq<nat>, p: nat)
    requires Increasing(g) && p < |g|
    ensures g[p] >= p
  {
    if p > 0 {
      AtLeastPosition(g, p - 1);
    }
  }

  lemma TwinsShareName(a: string, b: string)
    ensures OneName([Twin(a), Twin(b)], "pkg", Norm("id"))
  {
    assert Trim("id") == "id";
    var fs := [Twin(a), Twin(b)];
    forall i | 0 <= i < |fs| ensures Names(IdsOf(fs[i]), Norm("id")) {
      assert IdsOf(fs[i])[0] == "id";
    }
  }

  lemma TwinSurvivor(a: string, b: string)
    ensures Survivor([Twin(a), Twin(b)], [0, 1]).title == a
  {
    assert [0, 1][..1] == [0];
  }

  /** Two records of one package under one identifier that compare equal: the one that arrives first is kept. */
  method FirstTwinIsKept() returns (out: seq<Finding>, out': seq<Finding>)
    ensures |out| == |out'| == 1 && out[0].title == "first" && out'[0].title == "second"
  {
    ghost var groups, groups';
    out, groups := CollapseAliasGroups([Twin("first"), Twin("second")]);
    out', groups' := CollapseAliasGroups([Twin("second"), Twin("first")]);
    TwinsShareName("first", "second");
    TwinsShareName("second", "first");
    PairInOrder([Twin("first"), Twin("second")], groups);
    PairInOrder([Twin("second"), Twin("first")], groups');
    TwinSurvivor("first", "second");
    TwinSurvivor("second", "first");
  }

  // ----- The whole survivor ----------------------------------------------------------------------

  lemma {:induction false} NoWinnerAllOthers(fs: seq<Finding>, members: seq<nat>, winner: nat)
    requires forall p :: 0 <= p < |members| ==> members[p] < |fs|
    requires winner !in members
    ensures OthersOf(fs, members, winner) == Picked(fs, members)
    decreases members
  {
    if members != [] {
      var front := members[..|members| - 1];
      assert winner !in front && members[|members| - 1] != winner;
      NoWinnerAllOthers(fs, front, winner);
      PickedLast(fs, members);
    }
  }

  /** The others are the group without its winner. */
  lemma {:induction false} OthersAround(fs: seq<Finding>, members: seq<nat>, p: nat)
    requires forall p :: 0 <= p < |members| ==> members[p] < |fs|
    requires Distinct(members) && p < |members|
    ensures OthersOf(fs, members, members[p]) == Picked(fs, members[..p]) + Picked(fs, members[p + 1..])
    decreases members
  {
    var n := |members| - 1;
    var front := members[..n];
    if p == n {
      NoWinnerAllOthers(fs, front, members[n]);
    } else {
      OthersAround(fs, front, p);
      assert front[..p] == members[..p];
      PickedLast(fs, members[p + 1..]);
      assert members[p + 1..][..n - p - 1] == front[p + 1..];
    }
  }

  lemma PickedLast(fs: seq<Finding>, members: seq<nat>)
    requires members != [] && forall p :: 0 <= p < |members| ==> members[p] < |fs|
    ensures Picked(fs, members) == Picked(fs, members[..|members| - 1]) + [fs[members[|members| - 1]]]
  {
  }

  lemma PickedAround(fs: seq<Finding>, members: seq<nat>, p: nat)
    requires forall p :: 0 <= p < |members| ==> members[p] < |fs|
    requires p < |members|
    ensures Picked(fs, members) == Picked(fs, members[..p]) + [fs[members[p]]] + Picked(fs, members[p + 1..])
  {
  }

  lemma OthersBagAt(fs: seq<Finding>, members: seq<nat>, p: nat)
    requires forall p :: 0 <= p < |members| ==> members[p] < |fs|
    requires Distinct(members) && p < |members|
    ensures multiset(OthersOf(fs, members, members[p])) == multiset(Picked(fs, members)) - multiset{fs[members[p]]}
  {
    OthersAround(fs, members, p);
    PickedAround(fs, members, p);
    BagWithout(Picked(fs, members[..p]), fs[members[p]], Picked(fs, members[p + 1..]));
  }

  lemma OthersBag(fs: seq<Finding>, members: seq<nat>, w: nat)
    requires forall p :: 0 <= p < |members| ==> members[p] < |fs|
    requires Distinct(members) && w in members && w < |fs|
    ensures multiset(OthersOf(fs, members, w)) == multiset(Picked(fs, members)) - multiset{fs[w]}
  {
    var p :| 0 <= p < |members| && members[p] == w;
    OthersBagAt(fs, members, p);
  }

  lemma HoldsPicked(fs: seq<Finding>, members: seq<nat>, f: Finding)
    requires forall p :: 0 <= p < |members| ==> members[p] < |fs|
    ensures Holds(fs, members, f) <==> f in multiset(Picked(fs, members))
  {
    var picked := Picked(fs, members);
    if Holds(fs, members, f) {
      var p :| 0 <= p < |members| && fs[members[p]] == f;
      assert picked[p] == f;
    }
    if f in picked {
      var p :| 0 <= p < |picked| && picked[p] == f;
      assert fs[members[p]] == f;
    }
  }

  /** Two groups of the same findings. */
  ghost predicate SameGroup(fs: seq<Finding>, members: seq<nat>, fs': seq<Finding>, members': seq<nat>) {
    && IsGroup(fs, members) && Distinct(members) && IsGroup(fs', members') && Distinct(members')
    && multiset(Picked(fs, members)) == multiset(Picked(fs', members'))
  }

  lemma BestIsPicked(fs: seq<Finding>, members: seq<nat>)
    requires IsGroup(fs, members)
    ensures Holds(fs, members, fs[BestOf(fs, members)])
  {
    var p :| 0 <= p < |members| && members[p] == BestOf(fs, members);
    assert fs[members[p]] == fs[BestOf(fs, members)];
  }

  lemma SameSize(fs: seq<Finding>, members: seq<nat>, fs': seq<Finding>, members': seq<nat>)
    requires SameGroup(fs, members, fs', members')
    ensures |members| == |members'|
  {
    assert |multiset(Picked(fs, members))| == |members| && |multiset(Picked(fs', members'))| == |members'|;
  }

  /** No member beats the `p`th. */
  ghost predicate Unbeaten(fs: seq<Finding>, members: seq<nat>, p: nat)
    requires IsGroup(fs, members)
  {
    p < |members| && SameReading(fs[members[p]], fs[BestOf(fs, members)])
  }

  /** Everyone but the `p`th member, sorted. */
  function Beside(fs: seq<Finding>, members: seq<nat>, p: nat): seq<Finding>
    requires IsGroup(fs, members) && p < |members|
  {
    SortById(OthersOf(fs, members, members[p]))
  }

  /** What is left of a group if this member is kept beside these others. */
  function KeptWith(f: Finding, sorted: seq<Finding>): Finding {
    f.(aliases := Unioned(f, sorted))
  }

  /** Whichever unbeaten member is kept, the survivor is the same, and the order of the others does not show in its aliases. */
  ghost predicate Decided(fs: seq<Finding>, members: seq<nat>)
    requires IsGroup(fs, members)
  {
    |members| > 1 ==> forall p :: 0 <= p < |members| && Unbeaten(fs, members, p) ==>
      KeptWith(fs[members[p]], Beside(fs, members, p)) == Survivor(fs, members) && UnionSettled(fs[members[p]], Beside(fs, members, p))
  }

  // ----- A decided group has one survivor --------------------------------------------------------

  lemma WinnerIsUnbeaten(fs: seq<Finding>, members: seq<nat>, fs': seq<Finding>, members': seq<nat>) returns (p: nat)
    requires SameGroup(fs, members, fs', members')
    ensures Unbeaten(fs, members, p) && fs[members[p]] == fs'[BestOf(fs', members')]
  {
    forall f ensures Holds(fs, members, f) <==> Holds(fs', members', f) {
      HoldsPicked(fs, members, f);
      HoldsPicked(fs', members', f);
    }
    SurvivorIgnoresOrder(fs, members, fs', members');
    BestIsPicked(fs', members');
    p :| p < |members| && fs[members[p]] == fs'[BestOf(fs', members')];
  }

  lemma SameOthers(fs: seq<Finding>, members: seq<nat>, p: nat, fs': seq<Finding>, members': seq<nat>, w: nat)
    requires SameGroup(fs, members, fs', members') && p < |members| && w in members' && w < |fs'| && fs[members[p]] == fs'[w]
    ensures var s, t := Beside(fs, members, p), SortById(OthersOf(fs', members', w));
            SortedById(s) && SortedById(t) && multiset(s) == multiset(t)
  {
    OthersBagAt(fs, members, p);
    OthersBag(fs', members', w);
    SortFacts(OthersOf(fs, members, members[p]));
    SortFacts(OthersOf(fs', members', w));
  }

  lemma DecidedAgree(fs: seq<Finding>, members: seq<nat>, fs': seq<Finding>, members': seq<nat>)
    requires SameGroup(fs, members, fs', members') && Decided(fs, members)
    ensures Survivor(fs', members') == Survivor(fs, members)
  {
    SameSize(fs, members, fs', members');
    var p := WinnerIsUnbeaten(fs, members, fs', members');
    if |members| == 1 {
      BestOfOne(fs, members);
      BestOfOne(fs', members');
    } else {
      var w := BestOf(fs', members');
      SameOthers(fs, members, p, fs', members', w);
      SettledUniteAlike(fs[members[p]], Beside(fs, members, p), SortById(OthersOf(fs', members', w)));
    }
  }

  lemma BestOfOne(fs: seq<Finding>, members: seq<nat>)
    requires IsGroup(fs, members) && |members| == 1
    ensures Survivor(fs, members) == fs[BestOf(fs, members)] == fs[members[0]]
  {
  }

  // ----- An undecided group has several ----------------------------------------------------------

  function Upto(n: nat): (members: seq<nat>)
    ensures |members| == n && forall i :: 0 <= i < n ==> members[i] == i
  {
    seq(n, i => i)
  }

  lemma {:induction false} SortSorted(s: seq<Finding>)
    requires SortedById(s)
    ensures SortById(s) == s
  {
    if s != [] {
      SortSorted(s[1..]);
    }
  }

  lemma AllOf(fs: seq<Finding>)
    requires fs != []
    ensures IsGroup(fs, Upto(|fs|)) && Distinct(Upto(|fs|)) && Picked(fs, Upto(|fs|)) == fs
  {
  }

  /** The `p`th member and then the others, in a given order. */
  ghost predicate LeadsIn(fs: seq<Finding>, members: seq<nat>, p: nat, led: seq<Finding>)
    requires IsGroup(fs, members)
  {
    && p < |members| && led != [] && led[0] == fs[members[p]]
    && multiset(led[1..]) == multiset(OthersOf(fs, members, members[p]))
  }

  lemma BackInBag(whole: multiset<Finding>, led: seq<Finding>)
    requires led != [] && led[0] in whole && multiset(led[1..]) == whole - multiset{led[0]}
    ensures multiset(led) == whole
  {
    TailBag(led);
  }

  lemma LedBag(fs: seq<Finding>, members: seq<nat>, p: nat, led: seq<Finding>)
    requires IsGroup(fs, members) && Distinct(members) && LeadsIn(fs, members, p, led)
    ensures multiset(led) == multiset(Picked(fs, members))
  {
    OthersBagAt(fs, members, p);
    assert Picked(fs, members)[p] == fs[members[p]];
    BackInBag(multiset(Picked(fs, members)), led);
  }

  lemma LedGroup(fs: seq<Finding>, members: seq<nat>, p: nat, led: seq<Finding>)
    requires IsGroup(fs, members) && Distinct(members) && LeadsIn(fs, members, p, led)
    ensures SameGroup(fs, members, led, Upto(|led|))
  {
    LedBag(fs, members, p, led);
    AllOf(led);
  }

  lemma LeaderWins(fs: seq<Finding>, members: seq<nat>, p: nat, fs': seq<Finding>, members': seq<nat>)
    requires SameGroup(fs, members, fs', members') && Unbeaten(fs, members, p) && fs'[members'[0]] == fs[members[p]]
    ensures BestOf(fs', members') == members'[0]
  {
    forall q | 0 <= q < |members'| ensures !IsBetterMember(fs'[members'[q]], fs'[members'[0]]) {
      assert Holds(fs', members', fs'[members'[q]]);
      HoldsPicked(fs', members', fs'[members'[q]]);
      HoldsPicked(fs, members, fs'[members'[q]]);
      var r: nat :| r < |members| && fs[members[r]] == fs'[members'[q]];
      BestIsBest(fs, members, r);
      TwinUnbeaten(fs[members[r]], fs[BestOf(fs, members)], fs[members[p]]);
    }
    FirstUnbeatenWins(fs', members');
  }

  lemma {:induction false} OthersUpto(led: seq<Finding>, n: nat)
    requires 1 <= n <= |led|
    ensures OthersOf(led, Upto(n), 0) == led[1..n]
    decreases n
  {
    assert Upto(n)[..n - 1] == Upto(n - 1);
    if n == 1 {
      assert Upto(0) == [];
    } else {
      OthersUpto(led, n - 1);
    }
  }

  /** Any unbeaten member can be kept, with the others united in any sorted order. */
  lemma CanBeKept(fs: seq<Finding>, members: seq<nat>, p: nat, led: seq<Finding>)
    requires IsGroup(fs, members) && Distinct(members) && |members| > 1 && Unbeaten(fs, members, p)
    requires LeadsIn(fs, members, p, led) && SortedById(led[1..])
    ensures SameGroup(fs, members, led, Upto(|led|))
    ensures Survivor(led, Upto(|led|)) == KeptWith(fs[members[p]], led[1..])
  {
    LedGroup(fs, members, p, led);
    SameSize(fs, members, led, Upto(|led|));
    LeaderWins(fs, members, p, led, Upto(|led|));
    OthersUpto(led, |led|);
    assert led[1..|led|] == led[1..];
    SortSorted(led[1..]);
  }

  /** The survivor is the same in every order of arrival. */
  ghost predicate OrderFree(fs: seq<Finding>, members: seq<nat>)
    requires IsGroup(fs, members)
  {
    forall fs', members' :: SameGroup(fs, members, fs', members') ==> Survivor(fs', members') == Survivor(fs, members)
  }

  lemma OneSurvivorForAll(fs: seq<Finding>, members: seq<nat>, p: nat, t: seq<Finding>)
    requires IsGroup(fs, members) && Distinct(members) && |members| > 1 && OrderFree(fs, members) && Unbeaten(fs, members, p)
    requires SortedById(t) && multiset(t) == multiset(Beside(fs, members, p))
    ensures KeptWith(fs[members[p]], t) == Survivor(fs, members)
  {
    SortFacts(OthersOf(fs, members, members[p]));
    var led := [fs[members[p]]] + t;
    assert led[1..] == t;
    CanBeKept(fs, members, p, led);
  }

  lemma OrderFreeDecides(fs: seq<Finding>, members: seq<nat>, p: nat)
    requires IsGroup(fs, members) && Distinct(members) && |members| > 1 && OrderFree(fs, members) && Unbeaten(fs, members, p)
    ensures KeptWith(fs[members[p]], Beside(fs, members, p)) == Survivor(fs, members) && UnionSettled(fs[members[p]], Beside(fs, members, p))
  {
    var f, s := fs[members[p]], Beside(fs, members, p);
    SortFacts(OthersOf(fs, members, members[p]));
    OneSurvivorForAll(fs, members, p, s);
    if !UnionSettled(f, s) {
      var t := UnsettledUniteApart(f, s);
      OneSurvivorForAll(fs, members, p, t);
      SameAliases(f, s, t);
    }
  }

  lemma SameAliases(f: Finding, s: seq<Finding>, t: seq<Finding>)
    requires KeptWith(f, s) == KeptWith(f, t)
    ensures Unioned(f, s) == Unioned(f, t)
  {
    assert KeptWith(f, s).aliases == KeptWith(f, t).aliases;
  }

  /**
   The whole survivor, alias list included, is the same in every order of arrival if and only if every
   member that nobody beats would survive as the same finding, and among the others, taken by identifier,
   no two under one identifier would add different names in their turn.
   */
  lemma SurvivorIsOrderFreeExactly(fs: seq<Finding>, members: seq<nat>)
    requires IsGroup(fs, members) && Distinct(members)
    ensures OrderFree(fs, members) <==> Decided(fs, members)
  {
    if Decided(fs, members) {
      forall fs', members' | SameGroup(fs, members, fs', members') ensures Survivor(fs', members') == Survivor(fs, members) {
        DecidedAgree(fs, members, fs', members');
      }
    }
    if OrderFree(fs, members) && |members| > 1 {
      forall p | 0 <= p < |members| && Unbeaten(fs, members, p)
        ensures KeptWith(fs[members[p]], Beside(fs, members, p)) == Survivor(fs, members) && UnionSettled(fs[members[p]], Beside(fs, members, p))
      {
        OrderFreeDecides(fs, members, p);
      }
    }
  }

  // ----- Enough ----------------------------------------------------------------------------------

  /** Members under one identifier list the same aliases. */
  ghost predicate AliasesAgree(fs: seq<Finding>) {
    forall i, j :: 0 <= i < |fs| && 0 <= j < |fs| && fs[i].vulnerabilityId == fs[j].vulnerabilityId ==> fs[i].aliases == fs[j].aliases
  }

  lemma {:induction false} AgreeingSettle(own: string, out: seq<string>, s: seq<Finding>)
    requires AliasesAgree(s)
    ensures Settled(own, out, s)
    decreases s
  {
    if s != [] {
      AgreeingSettle(own, Pushed(own, out, s[0].aliases), s[1..]);
    }
  }

  lemma AgreeInPart(all: seq<Finding>, part: seq<Finding>)
    requires AliasesAgree(all) && multiset(part) <= multiset(all)
    ensures AliasesAgree(part)
  {
    forall i, j | 0 <= i < |part| && 0 <= j < |part| && part[i].vulnerabilityId == part[j].vulnerabilityId
      ensures part[i].aliases == part[j].aliases
    {
      assert part[i] in multiset(all) && part[j] in multiset(all);
      var k :| 0 <= k < |all| && all[k] == part[i];
      var l :| 0 <= l < |all| && all[l] == part[j];
    }
  }

  lemma BesideSettled(fs: seq<Finding>, members: seq<nat>, p: nat)
    requires IsGroup(fs, members) && Distinct(members) && p < |members| && AliasesAgree(Picked(fs, members))
    ensures UnionSettled(fs[members[p]], Beside(fs, members, p))
  {
    OthersBagAt(fs, members, p);
    SortFacts(OthersOf(fs, members, members[p]));
    AgreeInPart(Picked(fs, members), Beside(fs, members, p));
    AgreeingSettle(fs[members[p]].vulnerabilityId, Started(fs[members[p]], Beside(fs, members, p)), Beside(fs, members, p));
  }

  lemma TwinSurvives(fs: seq<Finding>, members: seq<nat>, p: nat)
    requires IsGroup(fs, members) && Distinct(members) && |members| > 1 && p < |members| && fs[members[p]] == fs[BestOf(fs, members)]
    requires UnionSettled(fs[members[p]], Beside(fs, members, p))
    ensures KeptWith(fs[members[p]], Beside(fs, members, p)) == Survivor(fs, members)
  {
    var w := BestOf(fs, members);
    SameOthers(fs, members, p, fs, members, w);
    SettledUniteAlike(fs[w], Beside(fs, members, p), SortById(OthersOf(fs, members, w)));
  }

  /**
   It is enough that members that compare equal to the best are the same finding, and that members under
   one identifier list the same aliases.
   */
  lemma SurvivorIsOrderFree(fs: seq<Finding>, members: seq<nat>)
    requires IsGroup(fs, members) && Distinct(members) && TwinsAgree(fs, members) && AliasesAgree(Picked(fs, members))
    ensures OrderFree(fs, members)
  {
    if |members| > 1 {
      forall p | 0 <= p < |members| && Unbeaten(fs, members, p)
        ensures KeptWith(fs[members[p]], Beside(fs, members, p)) == Survivor(fs, members) && UnionSettled(fs[members[p]], Beside(fs, members, p))
      {
        BesideSettled(fs, members, p);
        TwinSurvives(fs, members, p);
      }
    }
    SurvivorIsOrderFreeExactly(fs, members);
  }

  /** Distinct identifiers are enough for both. */
  lemma DistinctIdsSuffice(fs: seq<Finding>, members: seq<nat>)
    requires IsGroup(fs, members)
    requires forall p, q :: 0 <= p < q < |members| ==> fs[members[p]].vulnerabilityId != fs[members[q]].vulnerabilityId
    ensures TwinsAgree(fs, members) && AliasesAgree(Picked(fs, members))
  {
    var b :| 0 <= b < |members| && members[b] == BestOf(fs, members);
    forall p | 0 <= p < |members| && SameReading(fs[members[p]], fs[BestOf(fs, members)]) ensures p == b {
    }
  }
}

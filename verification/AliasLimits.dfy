/** What an alias group's survivor keeps of its members' names: every one, up to a cap. */
module AliasLimits {
  import opened Common
  import opened Text
  import opened OsvTypes
  import opened OsvFinding
  import opened AliasGraph
  import opened AliasGroups
  import opened AliasCollapse

  /** The findings of a group. */
  ghost function Picked(fs: seq<Finding>, members: seq<nat>): (r: seq<Finding>)
    requires forall p :: 0 <= p < |members| ==> members[p] < |fs|
    ensures |r| == |members| && forall p :: 0 <= p < |r| ==> r[p] == fs[members[p]]
  {
    seq(|members|, p requires 0 <= p < |members| => fs[members[p]])
  }

  /** The names findings go by, blanks aside. */
  ghost function PrimaryNames(fs: seq<Finding>): set<string> {
    NamesOf(PrimaryIds(fs)) - {[]}
  }

  lemma HasName(fs: seq<Finding>, i: nat)
    requires i < |fs|
    ensures Norm(fs[i].vulnerabilityId) in NamesOf(PrimaryIds(fs))
  {
    assert Norm(PrimaryIds(fs)[i]) == Norm(fs[i].vulnerabilityId);
  }

  lemma NameHolder(fs: seq<Finding>, name: string) returns (i: nat)
    requires name in NamesOf(PrimaryIds(fs))
    ensures i < |fs| && Norm(fs[i].vulnerabilityId) == name
  {
    i :| i < |fs| && Norm(PrimaryIds(fs)[i]) == name;
  }

  // ----- How many members a survivor can name ----------------------------------------------------

  lemma {:induction false} MembersAreOthers(fs: seq<Finding>, members: seq<nat>, winner: nat, p: nat)
    requires forall p :: 0 <= p < |members| ==> members[p] < |fs|
    requires p < |members| && members[p] != winner
    ensures fs[members[p]] in OthersOf(fs, members, winner)
    decreases members
  {
    var n := |members| - 1;
    if p < n {
      MembersAreOthers(fs, members[..n], winner, p);
    }
  }

  lemma OthersNames(fs: seq<Finding>, members: seq<nat>, winner: nat)
    requires forall p :: 0 <= p < |members| ==> members[p] < |fs|
    requires winner in members && winner < |fs|
    ensures LostNames(fs[winner], SortById(OthersOf(fs, members, winner)))
            == PrimaryNames(Picked(fs, members)) - {Norm(fs[winner].vulnerabilityId)}
  {
    var others, picked := OthersOf(fs, members, winner), Picked(fs, members);
    var sorted := SortById(others);
    SortFacts(others);
    forall name | name in NamesOf(PrimaryIds(sorted)) ensures name in NamesOf(PrimaryIds(picked)) {
      var i := NameHolder(sorted, name);
      assert sorted[i] in multiset(sorted);
      OthersAreMembers(fs, members, winner, sorted[i]);
      var p :| 0 <= p < |members| && fs[members[p]] == sorted[i];
      HasName(picked, p);
    }
    forall name | name in NamesOf(PrimaryIds(picked)) && name != Norm(fs[winner].vulnerabilityId)
      ensures name in NamesOf(PrimaryIds(sorted))
    {
      var p := NameHolder(picked, name);
      MembersAreOthers(fs, members, winner, p);
      assert picked[p] in multiset(sorted);
      var i :| 0 <= i < |sorted| && sorted[i] == picked[p];
      HasName(sorted, i);
    }
  }

  lemma NamesOfIds(f: Finding)
    ensures NamesOf(IdsOf(f)) == NamesOf(f.aliases) + {Norm(f.vulnerabilityId)}
  {
    var ids := IdsOf(f);
    forall name | name in NamesOf(ids) ensures name in NamesOf(f.aliases) + {Norm(f.vulnerabilityId)} {
      var i :| 0 <= i < |ids| && Norm(ids[i]) == name;
      if i > 0 {
        assert Norm(f.aliases[i - 1]) == name;
      }
    }
    assert Norm(ids[0]) == Norm(f.vulnerabilityId);
    forall name | name in NamesOf(f.aliases) ensures name in NamesOf(ids) {
      var i :| 0 <= i < |f.aliases| && Norm(f.aliases[i]) == name;
      assert Norm(ids[i + 1]) == name;
    }
  }

  /** How many names, besides its own, a survivor has room for. */
  ghost function Room(own: string): nat {
    if Norm(own) == [] then ALIASES_MAX else ALIASES_MAX + 1
  }

  lemma CountWithOwn(names: set<string>, own: string)
    requires [] !in names && (Norm(own) != [] ==> Norm(own) in names)
    ensures |names - {Norm(own)}| <= ALIASES_MAX <==> |names| <= Room(own)
  {
    if Norm(own) == [] {
      assert names - {Norm(own)} == names;
    }
  }

  lemma SmallGroupMatchable(fs: seq<Finding>, m: nat)
    requires m < |fs|
    ensures PrimaryNames(Picked(fs, [m])) <= NamesOf(IdsOf(fs[m])) && |PrimaryNames(Picked(fs, [m]))| <= Room(fs[m].vulnerabilityId)
  {
    var names := PrimaryNames(Picked(fs, [m]));
    NamesOfIds(fs[m]);
    assert names <= {Norm(fs[m].vulnerabilityId)};
    SubsetSize(names, {Norm(fs[m].vulnerabilityId)});
  }

  /**
   Whatever identifier a member of a group went by still finds the survivor exactly when the group's
   distinct identifiers are at most seventeen: the survivor's own and sixteen aliases.
   */
  lemma GroupStaysMatchableExactly(fs: seq<Finding>, members: seq<nat>)
    requires members != [] && forall p :: 0 <= p < |members| ==> members[p] < |fs|
    ensures PrimaryNames(Picked(fs, members)) <= NamesOf(IdsOf(Survivor(fs, members)))
            <==> |PrimaryNames(Picked(fs, members))| <= Room(fs[BestOf(fs, members)].vulnerabilityId)
  {
    if |members| == 1 {
      assert members == [members[0]];
      SmallGroupMatchable(fs, members[0]);
    } else {
      var w, names, s := BestOf(fs, members), PrimaryNames(Picked(fs, members)), Survivor(fs, members);
      var own, others := fs[w].vulnerabilityId, SortById(OthersOf(fs, members, w));
      OthersNames(fs, members, w);
      IdsStayMatchableExactly(fs[w], others);
      NamesOfIds(s);
      var p :| 0 <= p < |members| && members[p] == w;
      assert Norm(PrimaryIds(Picked(fs, members))[p]) == Norm(own);
      CountWithOwn(names, own);
      assert names <= NamesOf(IdsOf(s)) <==> names - {Norm(own)} <= NamesOf(s.aliases);
    }
  }

  // ----- A group that does not fit ---------------------------------------------------------------

  ghost predicate OneName(fs: seq<Finding>, purl: string, name: string) {
    forall i :: 0 <= i < |fs| ==> fs[i].purl == purl && Names(IdsOf(fs[i]), name)
  }

  lemma OneNameLinks(fs: seq<Finding>, purl: string, name: string, i: nat, j: nat)
    requires OneName(fs, purl, name) && i < |fs| && j < |fs|
    ensures Connected(AllKeys(fs), i, j)
  {
    KeysMeaning(purl, IdsOf(fs[i]), (purl, name));
    KeysMeaning(purl, IdsOf(fs[j]), (purl, name));
    assert (purl, name) in AllKeys(fs)[i] && (purl, name) in AllKeys(fs)[j];
    LinkedConnected(AllKeys(fs), i, j);
  }

  /** Findings of one package that share a name are one group. */
  lemma OneNameOneGroup(fs: seq<Finding>, groups: seq<seq<nat>>, purl: string, name: string)
    requires fs != [] && OneName(fs, purl, name) && Grouping(AllKeys(fs), groups) && InRange(fs, groups)
    ensures |groups| == 1 && forall i: nat :: i < |fs| ==> i in groups[0]
  {
    assert InSomeGroup(groups, 0);
    if |groups| > 1 {
      OneNameLinks(fs, purl, name, groups[0][0], groups[1][0]);
      assert false;
    }
    forall i: nat | i < |fs| ensures i in groups[0] {
      assert InSomeGroup(groups, i);
    }
  }

  /** Findings of one package that share a name collapse to one, which answers to all of them exactly up to the cap. */
  lemma OneNameOneFinding(fs: seq<Finding>, groups: seq<seq<nat>>, out: seq<Finding>, purl: string, name: string)
    requires fs != [] && OneName(fs, purl, name) && CollapsedBy(fs, groups, out)
    ensures |out| == 1
    ensures PrimaryNames(fs) <= NamesOf(IdsOf(out[0])) <==> |PrimaryNames(fs)| <= Room(out[0].vulnerabilityId)
  {
    OneNameOneGroup(fs, groups, purl, name);
    WholeGroupNames(fs, groups[0]);
    GroupStaysMatchableExactly(fs, groups[0]);
    assert out[0].vulnerabilityId == fs[BestOf(fs, groups[0])].vulnerabilityId;
  }

  lemma WholeGroupNames(fs: seq<Finding>, members: seq<nat>)
    requires forall p :: 0 <= p < |members| ==> members[p] < |fs|
    requires forall i: nat :: i < |fs| ==> i in members
    ensures PrimaryNames(Picked(fs, members)) == PrimaryNames(fs)
  {
    var picked := Picked(fs, members);
    forall n | n in NamesOf(PrimaryIds(fs)) ensures n in NamesOf(PrimaryIds(picked)) {
      var i := NameHolder(fs, n);
      assert i in members;
      var p :| 0 <= p < |members| && members[p] == i;
      HasName(picked, p);
    }
    forall n | n in NamesOf(PrimaryIds(picked)) ensures n in NamesOf(PrimaryIds(fs)) {
      var p := NameHolder(picked, n);
      HasName(fs, members[p]);
    }
  }

  function Letter(i: nat): (s: string)
    requires i < 26
    ensures |s| == 1 && s[0] == 'a' + i as char
  {
    ['a' + i as char]
  }

  lemma LetterName(i: nat)
    requires i < 26
    ensures Norm(Letter(i)) == Letter(i) && Norm(Letter(i)) != []
  {
    assert Trim(Letter(i)) == Letter(i);
  }

  /** `n` records of one package under a common alias, each with a name of its own. */
  function Crowd(n: nat): (fs: seq<Finding>)
    requires n <= 26
    ensures |fs| == n
    ensures forall i :: 0 <= i < n ==> fs[i] == Finding("pkg", Letter(i), High, None, [], [], [], ["cve"], None, true, None)
  {
    seq(n, i requires 0 <= i < n => Finding("pkg", Letter(i), High, None, [], [], [], ["cve"], None, true, None))
  }

  lemma CrowdNames(n: nat)
    requires n <= 26
    ensures |PrimaryNames(Crowd(n))| == n
  {
    var norms := NormsOf(PrimaryIds(Crowd(n)));
    forall i | 0 <= i < n ensures norms[i] == Letter(i) {
      LetterName(i);
    }
    assert Distinct(norms);
    DistinctSize(norms);
    assert PrimaryNames(Crowd(n)) == Elements(norms);
  }

  lemma CrowdShares(n: nat)
    requires n <= 26
    ensures OneName(Crowd(n), "pkg", Norm("cve"))
  {
    assert Trim("cve") == "cve";
    forall i | 0 <= i < n ensures Names(IdsOf(Crowd(n)[i]), Norm("cve")) {
      assert IdsOf(Crowd(n)[i])[1] == "cve";
    }
  }

  /** Eighteen records under one alias collapse to one that no longer answers to all their names. */
  method EighteenNamesLoseOne() returns (out: seq<Finding>)
    ensures |out| == 1 && !(PrimaryNames(Crowd(18)) <= NamesOf(IdsOf(out[0])))
  {
    ghost var groups;
    out, groups := CollapseAliasGroups(Crowd(18));
    CrowdShares(18);
    OneNameOneFinding(Crowd(18), groups, out, "pkg", Norm("cve"));
    CrowdNames(18);
  }
}

/** One advisory, one finding: collapsing the findings an advisory appears under by several names. */
module AliasGroups {
  import opened Common
  import opened Text
  import opened OsvTypes
  import opened OsvFinding
  import opened AliasGraph

  // ----- Identifiers -----------------------------------------------------------------------------

  /** A package and an identifier in the form under which they are matched. */
  type Key = (string, string)

  function IdsOf(f: Finding): seq<string> {
    [f.vulnerabilityId] + f.aliases
  }

  function KeysUnder(purl: string, ids: seq<string>): seq<Key> {
    if ids == [] then []
    else KeysUnder(purl, ids[..|ids| - 1]) + if Norm(ids[|ids| - 1]) == [] then [] else [(purl, Norm(ids[|ids| - 1]))]
  }

  function KeysOf(f: Finding): seq<Key> {
    KeysUnder(f.purl, IdsOf(f))
  }

  function AllKeys(fs: seq<Finding>): (keys: Keyed<Key>)
    ensures |keys| == |fs| && forall i :: 0 <= i < |fs| ==> keys[i] == KeysOf(fs[i])
  {
    seq(|fs|, i requires 0 <= i < |fs| => KeysOf(fs[i]))
  }

  /** One of `ids` reads as `name`. */
  ghost predicate Names(ids: seq<string>, name: string) {
    name != [] && exists i :: 0 <= i < |ids| && Norm(ids[i]) == name
  }

  lemma {:induction false} KeysMeaning(purl: string, ids: seq<string>, k: Key)
    ensures k in KeysUnder(purl, ids) <==> k.0 == purl && Names(ids, k.1)
  {
    if ids != [] {
      var front, last := ids[..|ids| - 1], ids[|ids| - 1];
      KeysMeaning(purl, front, k);
      if Names(front, k.1) {
        var i :| 0 <= i < |front| && Norm(front[i]) == k.1;
        assert Norm(ids[i]) == k.1;
      }
      if Names(ids, k.1) {
        var i :| 0 <= i < |ids| && Norm(ids[i]) == k.1;
        if i < |front| {
          assert Norm(front[i]) == k.1;
        }
      }
    }
  }

  // ----- The best-informed member ----------------------------------------------------------------

  function InformationRank(f: Finding): nat {
    if f.cvssScore.Some? then 3
    else if IsInformational(f) then 2
    else if f.assessed then 1
    else 0
  }

  /** Compare by information, then score, then severity, then identifier. */
  predicate IsBetterMember(candidate: Finding, incumbent: Finding) {
    var c, i := InformationRank(candidate), InformationRank(incumbent);
    if c != i then c > i
    else if candidate.cvssScore.Some? && incumbent.cvssScore.Some? && candidate.cvssScore.value != incumbent.cvssScore.value
    then candidate.cvssScore.value > incumbent.cvssScore.value
    else if candidate.severity != incumbent.severity then candidate.severity.Rank() > incumbent.severity.Rank()
    else candidate.vulnerabilityId != incumbent.vulnerabilityId && LexLeq(candidate.vulnerabilityId, incumbent.vulnerabilityId)
  }

  /** What the comparison looks at. */
  ghost predicate SameReading(f: Finding, g: Finding) {
    && InformationRank(f) == InformationRank(g) && f.cvssScore == g.cvssScore
    && f.severity == g.severity && f.vulnerabilityId == g.vulnerabilityId
  }

  lemma BetterTransitive(f: Finding, g: Finding, h: Finding)
    requires IsBetterMember(f, g) && IsBetterMember(g, h)
    ensures IsBetterMember(f, h)
  {
    if f.vulnerabilityId == h.vulnerabilityId && LexLeq(f.vulnerabilityId, g.vulnerabilityId) && LexLeq(g.vulnerabilityId, h.vulnerabilityId) {
      LexAntisymmetric(f.vulnerabilityId, g.vulnerabilityId);
    } else if LexLeq(f.vulnerabilityId, g.vulnerabilityId) && LexLeq(g.vulnerabilityId, h.vulnerabilityId) {
      LexTransitive(f.vulnerabilityId, g.vulnerabilityId, h.vulnerabilityId);
    }
  }

  /** Of two findings one is better, or they read the same. */
  lemma BetterTotal(f: Finding, g: Finding)
    ensures IsBetterMember(f, g) || IsBetterMember(g, f) || SameReading(f, g)
    ensures !(IsBetterMember(f, g) && IsBetterMember(g, f))
  {
    LexTotal(f.vulnerabilityId, g.vulnerabilityId);
    if LexLeq(f.vulnerabilityId, g.vulnerabilityId) && LexLeq(g.vulnerabilityId, f.vulnerabilityId) {
      LexAntisymmetric(f.vulnerabilityId, g.vulnerabilityId);
    }
  }

  function BestOf(fs: seq<Finding>, members: seq<nat>): (best: nat)
    requires members != [] && forall p :: 0 <= p < |members| ==> members[p] < |fs|
    ensures best in members && best < |fs|
  {
    if |members| == 1 then members[0]
    else
      var best := BestOf(fs, members[..|members| - 1]);
      if IsBetterMember(fs[members[|members| - 1]], fs[best]) then members[|members| - 1] else best
  }

  /** No member beats the survivor. */
  lemma {:induction false} BestIsBest(fs: seq<Finding>, members: seq<nat>, p: nat)
    requires members != [] && forall p :: 0 <= p < |members| ==> members[p] < |fs|
    requires p < |members|
    ensures !IsBetterMember(fs[members[p]], fs[BestOf(fs, members)])
    decreases members
  {
    var n := |members| - 1;
    BetterTotal(fs[members[p]], fs[members[p]]);
    if n > 0 {
      var best := BestOf(fs, members[..n]);
      if p < n {
        BestIsBest(fs, members[..n], p);
        if IsBetterMember(fs[members[n]], fs[best]) && IsBetterMember(fs[members[p]], fs[members[n]]) {
          BetterTransitive(fs[members[p]], fs[members[n]], fs[best]);
        }
      }
    }
  }

  // ----- The union of identifiers ----------------------------------------------------------------

  predicate Taken(own: string, out: seq<string>, name: string) {
    name == Norm(own) || exists i :: 0 <= i < |out| && Norm(out[i]) == name
  }

  function PushOne(own: string, out: seq<string>, candidate: string): seq<string> {
    if Norm(candidate) == [] || |out| >= ALIASES_MAX || Taken(own, out, Norm(candidate)) then out else out + [Trim(candidate)]
  }

  function Pushed(own: string, out: seq<string>, candidates: seq<string>): seq<string>
    decreases candidates
  {
    if candidates == [] then out else Pushed(own, PushOne(own, out, candidates[0]), candidates[1..])
  }

  /** Distinct names, none blank and none the survivor's own. */
  ghost predicate Tidy(own: string, out: seq<string>) {
    && |out| <= ALIASES_MAX
    && (forall i :: 0 <= i < |out| ==> Norm(out[i]) != [] && Norm(out[i]) != Norm(own))
    && forall i, j :: 0 <= i < j < |out| ==> Norm(out[i]) != Norm(out[j])
  }

  lemma PushOneFacts(own: string, out: seq<string>, c: string)
    requires Tidy(own, out)
    ensures Tidy(own, PushOne(own, out, c)) && out <= PushOne(own, out, c)
    ensures forall name :: Names(PushOne(own, out, c), name) ==> Names(out, name) || name == Norm(c) != []
    ensures |PushOne(own, out, c)| < ALIASES_MAX && Norm(c) != [] ==> Taken(own, PushOne(own, out, c), Norm(c))
  {
    NormTrimmed(c);
    var r := PushOne(own, out, c);
    if r != out {
      assert r[|out|] == Trim(c);
    }
  }

  lemma TakenGrows(own: string, out: seq<string>, more: seq<string>, name: string)
    requires out <= more && Taken(own, out, name)
    ensures Taken(own, more, name)
  {
    if name != Norm(own) {
      var i :| 0 <= i < |out| && Norm(out[i]) == name;
      assert more[i] == out[i];
    }
  }

  lemma {:induction false} PushedFacts(own: string, out: seq<string>, cs: seq<string>)
    requires Tidy(own, out)
    ensures Tidy(own, Pushed(own, out, cs)) && out <= Pushed(own, out, cs)
    ensures forall name :: Names(Pushed(own, out, cs), name) ==> Names(out, name) || Names(cs, name)
    ensures |Pushed(own, out, cs)| < ALIASES_MAX ==> forall name :: Names(cs, name) ==> Taken(own, Pushed(own, out, cs), name)
    decreases cs
  {
    if cs != [] {
      var next, result := PushOne(own, out, cs[0]), Pushed(own, out, cs);
      PushOneFacts(own, out, cs[0]);
      PushedFacts(own, next, cs[1..]);
      forall name | Names(result, name) ensures Names(out, name) || Names(cs, name) {
        NamesCons(cs, name);
      }
      if |result| < ALIASES_MAX {
        forall name | Names(cs, name) ensures Taken(own, result, name) {
          NamesCons(cs, name);
          if name == Norm(cs[0]) {
            TakenGrows(own, next, result, name);
          }
        }
      }
    }
  }

  lemma NamesCons(ids: seq<string>, name: string)
    requires ids != []
    ensures Names(ids, name) <==> name == Norm(ids[0]) != [] || Names(ids[1..], name)
  {
    if Names(ids, name) {
      var i :| 0 <= i < |ids| && Norm(ids[i]) == name;
      if i > 0 {
        assert Norm(ids[1..][i - 1]) == name;
      }
    }
    if Names(ids[1..], name) {
      var i :| 0 <= i < |ids[1..]| && Norm(ids[1..][i]) == name;
      assert Norm(ids[i + 1]) == name;
    }
  }

  function PrimaryIds(fs: seq<Finding>): (ids: seq<string>)
    ensures |ids| == |fs| && forall i :: 0 <= i < |fs| ==> ids[i] == fs[i].vulnerabilityId
  {
    seq(|fs|, i requires 0 <= i < |fs| => fs[i].vulnerabilityId)
  }

  function AliasesIn(fs: seq<Finding>): seq<string> {
    if fs == [] then [] else fs[0].aliases + AliasesIn(fs[1..])
  }

  /** The collapsed members' own identifiers first, then the survivor's aliases, then the members'. */
  function Unioned(winner: Finding, others: seq<Finding>): seq<string> {
    var own := winner.vulnerabilityId;
    Pushed(own, Pushed(own, Pushed(own, [], PrimaryIds(others)), winner.aliases), AliasesIn(others))
  }

  method PushAll(own: string, start: seq<string>, seen0: seq<string>, candidates: seq<string>)
    returns (out: seq<string>, seen: seq<string>)
    requires SeenNames(own, start, seen0)
    ensures out == Pushed(own, start, candidates) && SeenNames(own, out, seen)
  {
    out, seen := start, seen0;
    for i := 0 to |candidates|
      invariant SeenNames(own, out, seen) && Pushed(own, out, candidates[i..]) == Pushed(own, start, candidates)
    {
      var c := candidates[i];
      assert candidates[i..][0] == c && candidates[i..][1..] == candidates[i + 1..];
      SeenTaken(own, out, seen, Norm(c));
      if Norm(c) != [] && |out| < ALIASES_MAX && Norm(c) !in seen {
        NormTrimmed(c);
        seen := seen + [Norm(c)];
        out := out + [Trim(c)];
      }
    }
  }

  /** The names already seen: the survivor's own and those of the aliases collected so far. */
  ghost predicate SeenNames(own: string, out: seq<string>, seen: seq<string>) {
    && |seen| == |out| + 1 && seen[0] == Norm(own)
    && forall i :: 0 <= i < |out| ==> seen[i + 1] == Norm(out[i])
  }

  lemma SeenTaken(own: string, out: seq<string>, seen: seq<string>, name: string)
    requires SeenNames(own, out, seen)
    ensures name in seen <==> Taken(own, out, name)
  {
    if name in seen {
      var i :| 0 <= i < |seen| && seen[i] == name;
      if i > 0 {
        assert Norm(out[i - 1]) == name;
      }
    }
    if Taken(own, out, name) && name != Norm(own) {
      var i :| 0 <= i < |out| && Norm(out[i]) == name;
      assert seen[i + 1] == name;
    }
  }

  method UnionAliases(winner: Finding, others: seq<Finding>) returns (out: seq<string>)
    ensures out == Unioned(winner, others)
  {
    var own, seen := winner.vulnerabilityId, [Norm(winner.vulnerabilityId)];
    out, seen := PushAll(own, [], seen, PrimaryIds(others));
    out, seen := PushAll(own, out, seen, winner.aliases);
    out, seen := PushAll(own, out, seen, AliasesIn(others));
  }

  // ----- How many names fit ----------------------------------------------------------------------

  ghost function NormsOf(ids: seq<string>): (r: seq<string>)
    ensures |r| == |ids| && forall i :: 0 <= i < |ids| ==> r[i] == Norm(ids[i])
  {
    seq(|ids|, i requires 0 <= i < |ids| => Norm(ids[i]))
  }

  ghost function NamesOf(ids: seq<string>): (r: set<string>)
    ensures forall name :: name in r <==> exists i :: 0 <= i < |ids| && Norm(ids[i]) == name
  {
    Elements(NormsOf(ids))
  }

  lemma TidySize(own: string, out: seq<string>)
    requires Tidy(own, out)
    ensures |NamesOf(out)| == |out|
  {
    DistinctSize(NormsOf(out));
  }

  /** The names the collapsed members go by, other than the survivor's own. */
  ghost function LostNames(winner: Finding, others: seq<Finding>): set<string> {
    NamesOf(PrimaryIds(others)) - {[], Norm(winner.vulnerabilityId)}
  }

  lemma FirstPush(winner: Finding, others: seq<Finding>)
    ensures var own, first := winner.vulnerabilityId, Pushed(winner.vulnerabilityId, [], PrimaryIds(others));
            && Tidy(own, first) && NamesOf(first) <= LostNames(winner, others)
            && (|first| < ALIASES_MAX ==> NamesOf(first) == LostNames(winner, others))
            && first <= Unioned(winner, others) && (|first| >= ALIASES_MAX ==> Unioned(winner, others) == first)
            && Tidy(own, Unioned(winner, others))
  {
    var own, ids := winner.vulnerabilityId, PrimaryIds(others);
    var first := Pushed(own, [], ids);
    PushedFacts(own, [], ids);
    var second := Pushed(own, first, winner.aliases);
    PushedFacts(own, first, winner.aliases);
    PushedFacts(own, second, AliasesIn(others));
    forall name | name in NamesOf(first) ensures name in LostNames(winner, others) {
      assert Names(first, name) && !Names([], name);
      assert Names(ids, name);
    }
    if |first| < ALIASES_MAX {
      forall name | name in LostNames(winner, others) ensures name in NamesOf(first) {
        assert Names(ids, name) && Taken(own, first, name);
      }
    }
  }

  lemma FitsExactly(kept: set<string>, all: set<string>, lost: set<string>, cap: nat)
    requires kept <= lost && kept <= all && |kept| <= cap
    requires if |kept| < cap then kept == lost else all == kept
    ensures lost <= all <==> |lost| <= cap
  {
    SubsetSize(kept, lost);
    if lost <= kept {
      assert lost == kept;
    }
  }

  lemma PrefixNames(first: seq<string>, all: seq<string>)
    requires first <= all
    ensures NamesOf(first) <= NamesOf(all)
  {
    forall name | name in NamesOf(first) ensures name in NamesOf(all) {
      var i :| 0 <= i < |first| && Norm(first[i]) == name;
      assert all[i] == first[i];
    }
  }

  /**
   Every identifier a collapsed member goes by stays matchable on the survivor exactly when there are
   at most sixteen of them beside the survivor's own.
   */
  lemma IdsStayMatchableExactly(winner: Finding, others: seq<Finding>)
    ensures LostNames(winner, others) <= NamesOf(Unioned(winner, others)) <==> |LostNames(winner, others)| <= ALIASES_MAX
  {
    var first, all := Pushed(winner.vulnerabilityId, [], PrimaryIds(others)), Unioned(winner, others);
    FirstPush(winner, others);
    TidySize(winner.vulnerabilityId, first);
    PrefixNames(first, all);
    FitsExactly(NamesOf(first), NamesOf(all), LostNames(winner, others), ALIASES_MAX);
  }
}

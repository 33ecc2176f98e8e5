/** The united aliases of a group, and what the order of members under one identifier can change in them. */
module AliasUnion {
  import opened Common
  import opened Text
  import opened OsvTypes
  import opened OsvFinding
  import opened AliasGroups
  import opened AliasCollapse

  // ----- Pushing names onto a list ---------------------------------------------------------------

  /** One list continues the other. */
  predicate Comparable(a: seq<string>, b: seq<string>) {
    a <= b || b <= a
  }

  lemma {:induction false} PushedGrows(own: string, out: seq<string>, names: seq<string>)
    ensures out <= Pushed(own, out, names)
    decreases names
  {
    if names != [] {
      PushedGrows(own, PushOne(own, out, names[0]), names[1..]);
    }
  }

  lemma PushedOneAlready(own: string, out: seq<string>, name: string, more: seq<string>)
    requires PushOne(own, out, name) <= more
    ensures PushOne(own, more, name) == more
  {
    if Taken(own, out, Norm(name)) {
      TakenGrows(own, out, more, Norm(name));
    } else if Norm(name) != [] && |out| < ALIASES_MAX {
      NormTrimmed(name);
      assert more[|out|] == Trim(name);
    }
  }

  /** Names that were pushed below add nothing. */
  lemma {:induction false} PushedAlready(own: string, out: seq<string>, names: seq<string>, more: seq<string>)
    requires Pushed(own, out, names) <= more
    ensures Pushed(own, more, names) == more
    decreases names
  {
    if names != [] {
      var next := PushOne(own, out, names[0]);
      PushedGrows(own, next, names[1..]);
      PushedOneAlready(own, out, names[0], more);
      PushedAlready(own, next, names[1..], more);
    }
  }

  /** Names that were pushed in part are pushed the rest of the way. */
  lemma {:induction false} PushedInPart(own: string, out: seq<string>, names: seq<string>, part: seq<string>)
    requires out <= part <= Pushed(own, out, names)
    ensures Pushed(own, part, names) == Pushed(own, out, names)
    decreases names
  {
    if names != [] && part != out {
      var next := PushOne(own, out, names[0]);
      PushedGrows(own, next, names[1..]);
      assert next <= part;
      PushedOneAlready(own, out, names[0], part);
      PushedInPart(own, next, names[1..], part);
    }
  }

  /** Where one list continues the other, it is the result of both orders. */
  lemma PushedBothWays(own: string, out: seq<string>, a: seq<string>, b: seq<string>)
    requires Comparable(Pushed(own, out, a), Pushed(own, out, b))
    ensures Pushed(own, Pushed(own, out, a), b) == Pushed(own, Pushed(own, out, b), a)
  {
    PushedGrows(own, out, a);
    PushedGrows(own, out, b);
    if Pushed(own, out, a) <= Pushed(own, out, b) {
      PushedInPart(own, out, b, Pushed(own, out, a));
      PushedAlready(own, out, a, Pushed(own, out, b));
    } else {
      PushedInPart(own, out, a, Pushed(own, out, b));
      PushedAlready(own, out, b, Pushed(own, out, a));
    }
  }

  lemma PushedAfter(own: string, out: seq<string>, names: seq<string>, after: seq<string>)
    requires out <= after && Comparable(after, Pushed(own, out, names))
    ensures Pushed(own, after, names) == if after <= Pushed(own, out, names) then Pushed(own, out, names) else after
  {
    if after <= Pushed(own, out, names) {
      PushedInPart(own, out, names, after);
    } else {
      PushedAlready(own, out, names, after);
    }
  }

  /** What compares with `x` still does after a third that compares with it. */
  lemma StaysComparable(own: string, out: seq<string>, x: seq<string>, a: seq<string>, b: seq<string>)
    requires Comparable(Pushed(own, out, x), Pushed(own, out, a)) && Comparable(Pushed(own, out, x), Pushed(own, out, b))
    ensures Comparable(Pushed(own, Pushed(own, out, a), x), Pushed(own, Pushed(own, out, a), b))
  {
    var after := Pushed(own, out, a);
    PushedGrows(own, out, a);
    PushedAfter(own, out, x, after);
    PushedGrows(own, after, b);
    if after <= Pushed(own, out, x) {
      PushedAfter(own, out, b, after);
    }
  }

  /** From position `from` on, everything is one of these names, trimmed. */
  ghost predicate Drawn(out: seq<string>, from: nat, names: seq<string>) {
    from <= |out| && forall i :: from <= i < |out| ==> exists j :: 0 <= j < |names| && out[i] == Trim(names[j])
  }

  lemma {:induction false} PushedDrawn(own: string, out: seq<string>, names: seq<string>)
    ensures out <= Pushed(own, out, names) && Drawn(Pushed(own, out, names), |out|, names)
    decreases names
  {
    if names != [] {
      var next, result := PushOne(own, out, names[0]), Pushed(own, out, names);
      PushedDrawn(own, next, names[1..]);
      forall i | |out| <= i < |result| ensures exists j :: 0 <= j < |names| && result[i] == Trim(names[j]) {
        if i < |next| {
          assert result[i] == next[i] == Trim(names[0]);
        } else {
          var j :| 0 <= j < |names[1..]| && result[i] == Trim(names[1..][j]);
          assert names[j + 1] == names[1..][j];
        }
      }
    }
  }

  /** While there is room, every name is there. */
  ghost predicate NamesAll(own: string, out: seq<string>, names: seq<string>) {
    |out| < ALIASES_MAX ==> forall name :: Names(names, name) ==> Taken(own, out, name)
  }

  /**
   The united list: first the other members' identifiers, then the survivor's aliases, then the others'. A
   part begins only when the one before is complete.
   */
  lemma UnionInOrder(winner: Finding, others: seq<Finding>) returns (a: nat, b: nat)
    ensures var u, own := Unioned(winner, others), winner.vulnerabilityId;
            && a <= b <= |u| && Drawn(u[..a], 0, PrimaryIds(others)) && Drawn(u[..b], a, winner.aliases) && Drawn(u, b, AliasesIn(others))
            && NamesAll(own, u[..a], PrimaryIds(others)) && NamesAll(own, u[..b], winner.aliases) && NamesAll(own, u, AliasesIn(others))
  {
    var own := winner.vulnerabilityId;
    var first := Pushed(own, [], PrimaryIds(others));
    var second, third := Pushed(own, first, winner.aliases), Unioned(winner, others);
    PushedDrawn(own, [], PrimaryIds(others));
    PushedDrawn(own, first, winner.aliases);
    PushedDrawn(own, second, AliasesIn(others));
    PushedFacts(own, [], PrimaryIds(others));
    PushedFacts(own, first, winner.aliases);
    PushedFacts(own, second, AliasesIn(others));
    a, b := |first|, |second|;
    assert third[..a] == first && third[..b] == second;
  }

  // ----- Pouring whole members -------------------------------------------------------------------

  /** The members' aliases, one member after the other. */
  function Poured(own: string, out: seq<string>, fs: seq<Finding>): seq<string>
    decreases fs
  {
    if fs == [] then out else Poured(own, Pushed(own, out, fs[0].aliases), fs[1..])
  }

  lemma {:induction false} PushedConcat(own: string, out: seq<string>, a: seq<string>, b: seq<string>)
    ensures Pushed(own, out, a + b) == Pushed(own, Pushed(own, out, a), b)
    decreases a
  {
    if a == [] {
      assert a + b == b;
    } else {
      assert (a + b)[1..] == a[1..] + b;
      PushedConcat(own, PushOne(own, out, a[0]), a[1..], b);
    }
  }

  lemma {:induction false} PouredIsPushed(own: string, out: seq<string>, fs: seq<Finding>)
    ensures Poured(own, out, fs) == Pushed(own, out, AliasesIn(fs))
    decreases fs
  {
    if fs != [] {
      PushedConcat(own, out, fs[0].aliases, AliasesIn(fs[1..]));
      PouredIsPushed(own, Pushed(own, out, fs[0].aliases), fs[1..]);
    }
  }

  lemma {:induction false} PouredGrows(own: string, out: seq<string>, fs: seq<Finding>)
    ensures out <= Poured(own, out, fs)
    decreases fs
  {
    if fs != [] {
      PushedGrows(own, out, fs[0].aliases);
      PouredGrows(own, Pushed(own, out, fs[0].aliases), fs[1..]);
    }
  }

  lemma PouredHead(own: string, out: seq<string>, f: Finding, fs: seq<Finding>)
    ensures Poured(own, out, [f] + fs) == Poured(own, Pushed(own, out, f.aliases), fs)
  {
    assert ([f] + fs)[1..] == fs;
  }

  lemma {:induction false} PouredConcat(own: string, out: seq<string>, a: seq<Finding>, b: seq<Finding>)
    ensures Poured(own, out, a + b) == Poured(own, Poured(own, out, a), b)
    decreases a
  {
    if a == [] {
      assert a + b == b;
    } else {
      assert (a + b)[1..] == a[1..] + b;
      PouredConcat(own, Pushed(own, out, a[0].aliases), a[1..], b);
    }
  }

  /** A member that compares with all of some others may be poured before or after them. */
  lemma {:induction false} BeforeOrAfter(own: string, out: seq<string>, x: Finding, fs: seq<Finding>)
    requires forall i :: 0 <= i < |fs| ==> Comparable(Pushed(own, out, x.aliases), Pushed(own, out, fs[i].aliases))
    ensures Poured(own, out, [x] + fs) == Poured(own, out, fs + [x])
    decreases fs
  {
    if fs == [] {
      assert [x] + fs == fs + [x];
    } else {
      var f, rest := fs[0], fs[1..];
      var after := Pushed(own, out, f.aliases);
      PushedBothWays(own, out, x.aliases, f.aliases);
      forall i | 0 <= i < |rest| ensures Comparable(Pushed(own, after, x.aliases), Pushed(own, after, rest[i].aliases)) {
        assert rest[i] == fs[i + 1];
        StaysComparable(own, out, x.aliases, f.aliases, rest[i].aliases);
      }
      BeforeOrAfter(own, after, x, rest);
      SwapFirst(own, out, x, f, rest);
      assert fs + [x] == [f] + (rest + [x]);
      PouredHead(own, out, f, rest + [x]);
    }
  }

  lemma SwapFirst(own: string, out: seq<string>, x: Finding, f: Finding, rest: seq<Finding>)
    requires Pushed(own, Pushed(own, out, x.aliases), f.aliases) == Pushed(own, Pushed(own, out, f.aliases), x.aliases)
    ensures Poured(own, out, [x] + ([f] + rest)) == Poured(own, Pushed(own, out, f.aliases), [x] + rest)
  {
    PouredHead(own, out, x, [f] + rest);
    PouredHead(own, Pushed(own, out, x.aliases), f, rest);
    PouredHead(own, Pushed(own, out, f.aliases), x, rest);
  }

  // ----- When the order under one identifier does not matter -------------------------------------

  /** The first member compares with all under its identifier. */
  ghost predicate HeadSettled(own: string, out: seq<string>, fs: seq<Finding>)
    requires fs != []
  {
    forall q :: 0 <= q < |fs| && fs[q].vulnerabilityId == fs[0].vulnerabilityId ==>
      Comparable(Pushed(own, out, fs[0].aliases), Pushed(own, out, fs[q].aliases))
  }

  /** Of each member in its turn, and every later one under its identifier, one only continues what the other adds. */
  ghost predicate Settled(own: string, out: seq<string>, fs: seq<Finding>)
    decreases fs
  {
    fs != [] ==> HeadSettled(own, out, fs) && Settled(own, Pushed(own, out, fs[0].aliases), fs[1..])
  }

  /** Whoever comes before the least member has its identifier. */
  lemma BeforeTheLeast(s: seq<Finding>, t: seq<Finding>, k: nat, i: nat)
    requires SortedById(s) && SortedById(t) && multiset(s) == multiset(t) && s != [] && i < k < |t| && t[k] == s[0]
    ensures t[i].vulnerabilityId == s[0].vulnerabilityId && t[i] in s
  {
    assert t[i] in multiset(s);
    var q :| 0 <= q < |s| && s[q] == t[i];
    if q > 0 {
      LexAntisymmetric(s[0].vulnerabilityId, t[i].vulnerabilityId);
    }
  }

  lemma SortedWithout(t: seq<Finding>, k: nat)
    requires SortedById(t) && k < |t|
    ensures SortedById(t[..k] + t[k + 1..])
  {
  }

  lemma SortedTail(s: seq<Finding>)
    requires SortedById(s) && s != []
    ensures SortedById(s[1..])
  {
  }

  /** Take the least member out of two sorted lists of the same members. */
  lemma LeastOut(s: seq<Finding>, t: seq<Finding>) returns (k: nat, rest: seq<Finding>)
    requires SortedById(s) && SortedById(t) && multiset(s) == multiset(t) && s != []
    ensures k < |t| && t[k] == s[0] && rest == t[..k] + t[k + 1..]
    ensures SortedById(s[1..]) && SortedById(rest) && multiset(s[1..]) == multiset(rest)
    ensures forall i :: 0 <= i < k ==> t[i].vulnerabilityId == s[0].vulnerabilityId && t[i] in s
  {
    k := WithoutHead(s, t);
    rest := t[..k] + t[k + 1..];
    SortedTail(s);
    SortedWithout(t, k);
    forall i | 0 <= i < k ensures t[i].vulnerabilityId == s[0].vulnerabilityId && t[i] in s {
      BeforeTheLeast(s, t, k, i);
    }
  }

  lemma HeadCompares(own: string, out: seq<string>, s: seq<Finding>, f: Finding)
    requires s != [] && HeadSettled(own, out, s) && f in s && f.vulnerabilityId == s[0].vulnerabilityId
    ensures Comparable(Pushed(own, out, s[0].aliases), Pushed(own, out, f.aliases))
  {
  }

  lemma MovedToFront(own: string, out: seq<string>, t: seq<Finding>, k: nat)
    requires k < |t|
    requires forall i :: 0 <= i < k ==> Comparable(Pushed(own, out, t[k].aliases), Pushed(own, out, t[i].aliases))
    ensures Poured(own, out, t) == Poured(own, Pushed(own, out, t[k].aliases), t[..k] + t[k + 1..])
  {
    BeforeOrAfter(own, out, t[k], t[..k]);
    assert t == (t[..k] + [t[k]]) + t[k + 1..];
    PouredConcat(own, out, t[..k] + [t[k]], t[k + 1..]);
    PouredHead(own, out, t[k], t[..k]);
    PouredConcat(own, Pushed(own, out, t[k].aliases), t[..k], t[k + 1..]);
  }

  lemma {:induction false} SettledPourAlike(own: string, out: seq<string>, s: seq<Finding>, t: seq<Finding>)
    requires SortedById(s) && SortedById(t) && multiset(s) == multiset(t) && Settled(own, out, s)
    ensures Poured(own, out, s) == Poured(own, out, t)
    decreases s
  {
    if s == [] {
      assert |multiset(t)| == |t|;
    } else {
      var k, rest := LeastOut(s, t);
      forall i | 0 <= i < k ensures Comparable(Pushed(own, out, t[k].aliases), Pushed(own, out, t[i].aliases)) {
        HeadCompares(own, out, s, t[i]);
      }
      MovedToFront(own, out, t, k);
      SettledPourAlike(own, Pushed(own, out, s[0].aliases), s[1..], rest);
    }
  }

  /** The same members with the `q`th first. */
  function Fronted(s: seq<Finding>, q: nat): (t: seq<Finding>)
    requires q < |s|
    ensures multiset(t) == multiset(s) && t == [s[q]] + (s[..q] + s[q + 1..])
  {
    assert s == s[..q] + ([s[q]] + s[q + 1..]);
    [s[q]] + (s[..q] + s[q + 1..])
  }

  lemma FrontedSorted(s: seq<Finding>, q: nat)
    requires SortedById(s) && q < |s| && s[q].vulnerabilityId == s[0].vulnerabilityId
    ensures SortedById(Fronted(s, q))
  {
    SortedWithout(s, q);
    var rest := s[..q] + s[q + 1..];
    forall j | 0 <= j < |rest| ensures LexLeq(s[q].vulnerabilityId, rest[j].vulnerabilityId) {
      LexTotal(s[0].vulnerabilityId, s[0].vulnerabilityId);
      assert rest[j] == if j < q then s[j] else s[j + 1];
    }
    SortedCons(s[q], rest);
  }

  lemma SortedCons(f: Finding, rest: seq<Finding>)
    requires SortedById(rest) && forall j :: 0 <= j < |rest| ==> LexLeq(f.vulnerabilityId, rest[j].vulnerabilityId)
    ensures SortedById([f] + rest)
  {
  }

  lemma FrontedDiffers(own: string, out: seq<string>, s: seq<Finding>, q: nat)
    requires q < |s| && !Comparable(Pushed(own, out, s[0].aliases), Pushed(own, out, s[q].aliases))
    ensures Poured(own, out, Fronted(s, q)) != Poured(own, out, s)
  {
    PouredHead(own, out, s[q], s[..q] + s[q + 1..]);
    PouredGrows(own, Pushed(own, out, s[q].aliases), s[..q] + s[q + 1..]);
    PouredGrows(own, Pushed(own, out, s[0].aliases), s[1..]);
  }

  lemma {:induction false} UnsettledPourApart(own: string, out: seq<string>, s: seq<Finding>) returns (t: seq<Finding>)
    requires SortedById(s) && !Settled(own, out, s)
    ensures SortedById(t) && multiset(t) == multiset(s) && Poured(own, out, t) != Poured(own, out, s)
    decreases s
  {
    if !HeadSettled(own, out, s) {
      var q: nat :| q < |s| && s[q].vulnerabilityId == s[0].vulnerabilityId
                    && !Comparable(Pushed(own, out, s[0].aliases), Pushed(own, out, s[q].aliases));
      t := Fronted(s, q);
      FrontedSorted(s, q);
      FrontedDiffers(own, out, s, q);
    } else {
      SortedTail(s);
      var rest := UnsettledPourApart(own, Pushed(own, out, s[0].aliases), s[1..]);
      t := [s[0]] + rest;
      PouredHead(own, out, s[0], rest);
      TailBag(s);
      LeastLeads(s, rest);
    }
  }

  lemma LeastLeads(s: seq<Finding>, rest: seq<Finding>)
    requires SortedById(s) && s != [] && SortedById(rest) && multiset(rest) == multiset(s[1..])
    ensures SortedById([s[0]] + rest) && multiset([s[0]] + rest) == multiset(s)
  {
    forall j | 0 <= j < |rest| ensures LexLeq(s[0].vulnerabilityId, rest[j].vulnerabilityId) {
      assert rest[j] in multiset(s[1..]);
      var i :| 0 <= i < |s[1..]| && s[1..][i] == rest[j];
      assert s[i + 1] == rest[j];
    }
    SortedCons(s[0], rest);
    assert s == [s[0]] + s[1..];
  }

  // ----- The whole union -------------------------------------------------------------------------

  lemma RotatedIds(t: seq<Finding>, k: nat)
    requires k < |t| && forall i :: 0 <= i < k ==> t[i].vulnerabilityId == t[k].vulnerabilityId
    ensures PrimaryIds(t) == [t[k].vulnerabilityId] + PrimaryIds(t[..k] + t[k + 1..])
  {
    var rest := t[..k] + t[k + 1..];
    forall i | 0 < i < |t| ensures PrimaryIds(t)[i] == PrimaryIds(rest)[i - 1] {
      assert rest[i - 1] == if i - 1 < k then t[i - 1] else t[i];
    }
  }

  lemma {:induction false} SameIds(s: seq<Finding>, t: seq<Finding>)
    requires SortedById(s) && SortedById(t) && multiset(s) == multiset(t)
    ensures PrimaryIds(s) == PrimaryIds(t)
    decreases s
  {
    if s == [] {
      assert |multiset(t)| == |t|;
    } else {
      var k, rest := LeastOut(s, t);
      RotatedIds(t, k);
      RotatedIds(s, 0);
      assert s[..0] + s[1..] == s[1..];
      SameIds(s[1..], rest);
    }
  }

  /** What is pushed before the others' aliases. */
  function Started(winner: Finding, others: seq<Finding>): seq<string> {
    var own := winner.vulnerabilityId;
    Pushed(own, Pushed(own, [], PrimaryIds(others)), winner.aliases)
  }

  lemma UnionedIsPoured(winner: Finding, others: seq<Finding>)
    ensures Unioned(winner, others) == Poured(winner.vulnerabilityId, Started(winner, others), others)
  {
    PouredIsPushed(winner.vulnerabilityId, Started(winner, others), others);
  }

  /** No two of the others under one identifier would add different names. */
  ghost predicate UnionSettled(winner: Finding, sorted: seq<Finding>) {
    Settled(winner.vulnerabilityId, Started(winner, sorted), sorted)
  }

  lemma SettledUniteAlike(winner: Finding, s: seq<Finding>, t: seq<Finding>)
    requires SortedById(s) && SortedById(t) && multiset(s) == multiset(t) && UnionSettled(winner, s)
    ensures Unioned(winner, s) == Unioned(winner, t)
  {
    SameIds(s, t);
    SettledPourAlike(winner.vulnerabilityId, Started(winner, s), s, t);
    UnionedIsPoured(winner, s);
    UnionedIsPoured(winner, t);
  }

  lemma UnsettledUniteApart(winner: Finding, s: seq<Finding>) returns (t: seq<Finding>)
    requires SortedById(s) && !UnionSettled(winner, s)
    ensures SortedById(t) && multiset(t) == multiset(s) && Unioned(winner, t) != Unioned(winner, s)
  {
    t := UnsettledPourApart(winner.vulnerabilityId, Started(winner, s), s);
    SameIds(s, t);
    UnionedIsPoured(winner, s);
    UnionedIsPoured(winner, t);
  }

  /**
   The united aliases are the same for every order of members under one identifier if and only if, of
   each member in its turn and every later one under its identifier, one only continues what the other
   adds to the list.
   */
  lemma UnionIsOrderFreeExactly(winner: Finding, s: seq<Finding>)
    requires SortedById(s)
    ensures (forall t :: SortedById(t) && multiset(t) == multiset(s) ==> Unioned(winner, t) == Unioned(winner, s)) <==> UnionSettled(winner, s)
  {
    if UnionSettled(winner, s) {
      forall t | SortedById(t) && multiset(t) == multiset(s) ensures Unioned(winner, t) == Unioned(winner, s) {
        SettledUniteAlike(winner, s, t);
      }
    } else {
      var t := UnsettledUniteApart(winner, s);
    }
  }
}

/** Concrete feeds, and what the adapter answers over them. */
module OsvWorlds {
  import opened Common
  import opened Text
  import opened OsvKeys
  import opened OsvTypes
  import opened OsvFinding
  import opened OsvSpec
  import opened OsvQuery
  import opened OsvHistory
  import opened OsvDegrade
  import opened OsvAnswer
  import opened OsvSoften
  import opened OsvShared
  import opened AliasCollapse
  import opened AliasGroups
  import Utf8

  lemma EncodingIsCollisionFree()
    ensures CollisionFree(Utf8.Encode)
  {
    forall a, b | Utf8.Encode(a) == Utf8.Encode(b) ensures a == b {
      Utf8.DecodeEncoded(a);
      Utf8.DecodeEncoded(b);
    }
  }

  function WorldOf(batch: Query -> seq<OsvVuln>, record: string -> Option<OsvVuln>, lib: Library): World {
    World(batch, record, Utf8.Encode, (c, v) => VulnToFinding(lib, c, v))
  }

  // ----- A version `*` answers for an absent one -------------------------------------------------

  const ADVISORY := Abbreviated("a", None)
  /** A dependency on any version, as a manifest's `"*"` is read. */
  const STARRED := Component("left-pad", Some("*"), "npm", "pkg:npm/left-pad@*")
  /** A dependency without a version, as a manifest's `""` is read. */
  const BARE := Component("left-pad", None, "npm", "pkg:npm/left-pad")

  /** One advisory for whoever asks without a version, and nothing for a version. */
  function OneAdvisory(q: Query): seq<OsvVuln> {
    if q.version == None then [ADVISORY] else []
  }

  lemma StarredIsAsked(w: World)
    requires w.batch == OneAdvisory
    ensures Prepared([Asking(STARRED)]) == [STARRED] && Prepared([Asking(BARE)]) == [BARE] && KeyOf(w, STARRED) == KeyOf(w, BARE)
    ensures forall failed :: Built(w, STARRED, failed) == []
  {
    AskingPrepares(STARRED);
    AskingPrepares(BARE);
  }

  lemma BareIsAffected(lib: Library)
    ensures NaiveAll(WorldOf(OneAdvisory, id => None, lib), [BARE]) == [VulnToFinding(lib, BARE, ADVISORY)]
  {
    var w := WorldOf(OneAdvisory, id => None, lib);
    SingleBuilt(w, BARE, ADVISORY, {});
    NaiveOfOne(w, BARE);
  }

  lemma SomeMember(fs: seq<Finding>, groups: seq<seq<nat>>)
    requires InRange(fs, groups)
    ensures groups != [] ==> fs != []
  {
    if groups != [] {
      assert groups[0] != [] && groups[0][0] < |fs|;
    }
  }

  lemma NothingCollapses(groups: seq<seq<nat>>, out: seq<Finding>)
    requires CollapsedBy([], groups, out)
    ensures out == []
  {
    SomeMember([], groups);
  }

  /**
   One adapter is asked about a component of version `*`, then about the same component without a
   version, and nothing fails. The feed has an advisory for the second; the answer has none.
   */
  method StarHidesAdvisory(lib: Library) returns (first: Option<seq<Finding>>, second: Option<seq<Finding>>)
    ensures first == second == Some([])
    ensures var w := WorldOf(OneAdvisory, id => None, lib);
            Sane(w, Calm(w.batch)) && Serving(Calm(w.batch)) && NaiveAll(w, [BARE]) == [VulnToFinding(lib, BARE, ADVISORY)]
  {
    var w := WorldOf(OneAdvisory, id => None, lib);
    EncodingIsCollisionFree();
    FailingForServes(w, id => false);
    StarredIsAsked(w);
    BareIsAffected(lib);
    ghost var failed, groups, groups';
    first, second, failed, groups, groups' := AdviseInTurn(w, Asking(STARRED), STARRED, Asking(BARE), BARE, Calm(w.batch));
    NothingCollapses(groups, first.value);
    NothingCollapses(groups', second.value);
  }

  // ----- A feed over which an outage shows -------------------------------------------------------

  const PADDED := Component("left-pad", Some("1.3.0"), "npm", "pkg:npm/left-pad@1.3.0")
  const MIRROR := Abbreviated("b", None)
  const SCORED_RECORD := ADVISORY.(severity := [Some("vector")])
  const MIRROR_RECORD := MIRROR.(aliases := ["a"], databaseSpecific := Some(DatabaseSpecific(None, Some("notice"))))

  /** Every vector scores 7.5. */
  const SCORER := Library(vector => Some(7.5), text => None)

  function TwoRecords(id: string): Option<OsvVuln> {
    if id == "a" then Some(SCORED_RECORD) else if id == "b" then Some(MIRROR_RECORD) else None
  }

  lemma MirrorNamesScored()
    ensures Names(IdsOf(VulnToFinding(SCORER, PADDED, MIRROR_RECORD)), Norm("a"))
    ensures IsInformational(VulnToFinding(SCORER, PADDED, MIRROR_RECORD))
  {
    var f := VulnToFinding(SCORER, PADDED, MIRROR_RECORD);
    assert Trim("a") == "a" && Lower("a") == "a";
    assert f.aliases == ["a"] && IdsOf(f)[1] == "a";
    assert Trim("notice") == "notice" && Lower("notice") == "notice";
  }

  ghost predicate Abbreviates(batch: Query -> seq<OsvVuln>) {
    forall q, i :: 0 <= i < |batch(q)| ==> Bare(batch(q)[i]) && SeparatorFree(batch(q)[i].id)
  }

  /** A feed with these answers and the two records, and its faults while some ids cannot be fetched and later. */
  method FeedWith(batch: Query -> seq<OsvVuln>, fails: string -> bool)
    returns (w: World, component: SbomComponent, outage: Faults, calm: Faults)
    requires Abbreviates(batch)
    ensures w.batch == batch && w.record == TwoRecords && Reads(w, SCORER) && Prepared([component]) == [PADDED]
    ensures Sane(w, outage) && Sane(w, calm) && Serving(outage) && Serving(calm)
    ensures (forall k :: outage.recordFails(k) <==> fails(k.id)) && forall k :: !calm.recordFails(k)
  {
    w, component := WorldOf(batch, TwoRecords, SCORER), Asking(PADDED);
    outage, calm := FailingFor(batch, fails), Calm(batch);
    EncodingIsCollisionFree();
    FailingForServes(w, fails);
    FailingForServes(w, id => false);
    AskingPrepares(PADDED);
  }

  lemma RecordsAreFetched(w: World)
    requires w.record == TwoRecords
    ensures Fetched(w, "a") == Some(SCORED_RECORD) && Fetched(w, "b") == Some(MIRROR_RECORD)
  {
  }

  lemma MirroredIsMet(w: World)
    requires Reads(w, SCORER) && w.record == TwoRecords && w.batch(QueryOf(PADDED)) == [ADVISORY, MIRROR]
    ensures Mirrored(w, SCORER, PADDED, ADVISORY, MIRROR, SCORED_RECORD, MIRROR_RECORD)
  {
    RecordsAreFetched(w);
    MirrorNamesScored();
  }

  /** A feed over which `OutageSoftens` applies: the answer is milder while one record cannot be fetched. */
  method OutageSoftensHere() returns (during: Option<seq<Finding>>, healthy: Option<seq<Finding>>)
    ensures healthy.Some? && |healthy.value| == 1 && during.Some? && |during.value| == 1
    ensures during.value[0].severity.Rank() < healthy.value[0].severity.Rank()
  {
    var w, component, outage, calm := FeedWith(q => [ADVISORY, MIRROR], id => id == "a");
    MirroredIsMet(w);
    during, healthy := OutageSoftens(w, SCORER, component, PADDED, ADVISORY, MIRROR, SCORED_RECORD, MIRROR_RECORD, outage, calm);
  }

  /**
   A feed over which `OutageOutlivesItself` applies: a query made when nothing fails any more still answers
   with the unread finding.
   */
  method OutageOutlivesItselfHere() returns (w: World, second: Option<seq<Finding>>)
    ensures second.Some? && |second.value| == 1 && Unread(second.value[0])
    ensures |NaiveAll(w, [PADDED])| == 1 && NaiveAll(w, [PADDED])[0].cvssScore == Some(7.5)
  {
    var component, outage, calm, first;
    w, component, outage, calm := FeedWith(q => [ADVISORY], id => true);
    RecordsAreFetched(w);
    first, second := OutageOutlivesItself(w, component, PADDED, ADVISORY, outage, calm);
    BareIsUnread(SCORER, PADDED, ADVISORY);
  }
}

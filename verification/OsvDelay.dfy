/** Advisories that appear in an archive only some time after they were modified. */
module OsvDelay {
  import opened Common
  import opened OsvTypes
  import opened OsvBulk
  import opened OsvWatch

  /** A version of the advisory modified at `m` or later is published from `p` on. */
  ghost predicate PublishedFrom(tl: Timeline, eco: Ecosystem, id: string, m: int, p: int) {
    forall t :: (tl(eco, id, t).Some? && tl(eco, id, t).value.modified.Some? && tl(eco, id, t).value.modified.value >= m) <==> t >= p
  }

  /** The archives carry nothing but what is published when they are pulled. */
  ghost predicate OnlyPublished(tl: Timeline, t: Tick) {
    forall i, mem ::
      (0 <= i < |t.feeds| && i < |t.pulledAt| && t.feeds[i].fetch.Opened? && mem in t.feeds[i].fetch.members
       && IsRecordMember(mem) && mem.body.Parsed?)
      ==> tl(t.feeds[i].eco, mem.body.record.id, t.pulledAt[i]) == Some(mem.body.record)
  }

  /** An entry about the advisory, for this ecosystem and at least that recent. */
  predicate About(e: AdvisoryEntry, eco: Ecosystem, id: string, m: int) {
    e.id == id && e.modified >= m && e.affected != [] && e.affected[0].ecosystem == eco
  }

  /** The tick pulls the archive once the advisory is published, and finds a relevant version the window is open to. */
  ghost predicate InTime(tl: Timeline, eco: Ecosystem, id: string, p: int, j: nat, checkpoint: Option<int>, t: Tick) {
    && j < |t.pulledAt| && p <= t.pulledAt[j]
    && tl(eco, id, t.pulledAt[j]).Some? && tl(eco, id, t.pulledAt[j]).value.modified.Some?
    && Since(checkpoint, t.now) < tl(eco, id, t.pulledAt[j]).value.modified.value && Relevant(tl(eco, id, t.pulledAt[j]).value, eco)
  }

  lemma NamesOfEcosystem(affected: seq<RecordAffected>, eco: Ecosystem)
    ensures forall n :: n in NamesIn(affected, eco) ==> n.ecosystem == eco
  {
    NamesInMeaning(affected, eco);
  }

  lemma InTimeReturns(tl: Timeline, ecos: seq<Ecosystem>, t: Tick, checkpoint: Option<int>, j: nat, id: string, m: int, p: int)
    returns (e: AdvisoryEntry)
    requires Orderly(tl) && Pulls(tl, ecos, t) && Saves(checkpoint, t) && j < |ecos|
    requires PublishedFrom(tl, ecos[j], id, m, p) && InTime(tl, ecos[j], id, p, j, checkpoint, t)
    ensures e in Window(checkpoint, t) && About(e, ecos[j], id, m)
  {
    var rec, since := tl(ecos[j], id, t.pulledAt[j]).value, Since(checkpoint, t.now);
    e := EntryOf(rec, ecos[j]);
    assert Readable(t.feeds[j]);
    CarriedExactly(tl, ecos, t, j, rec, since);
    NamesInMeaning(rec.affected, ecos[j]);
    NamesOfEcosystem(rec.affected, ecos[j]);
    assert e.affected[0] in NamesIn(rec.affected, ecos[j]);
  }

  lemma ReturnedInTime(tl: Timeline, ecos: seq<Ecosystem>, t: Tick, checkpoint: Option<int>, j: nat, id: string, m: int, p: int, e: AdvisoryEntry)
    requires Pulls(tl, ecos, t) && OnlyPublished(tl, t) && j < |ecos| && Distinct(ecos)
    requires PublishedFrom(tl, ecos[j], id, m, p) && e in Window(checkpoint, t) && About(e, ecos[j], id, m)
    ensures InTime(tl, ecos[j], id, p, j, checkpoint, t)
  {
    var since := Since(checkpoint, t.now);
    HarvestAllMeaning(t.feeds, since);
    var i :| 0 <= i < |t.feeds| && FromFeed(e, t.feeds[i], since);
    var mem :| mem in t.feeds[i].fetch.members && IsRecordMember(mem) && mem.body.Parsed?
               && ToEntry(mem.body.record, t.feeds[i].eco, since) == Some(e);
    NamesOfEcosystem(mem.body.record.affected, t.feeds[i].eco);
    assert e.affected[0] in NamesIn(mem.body.record.affected, t.feeds[i].eco);
    assert ecos[i] == ecos[j] && i == j;
    assert tl(ecos[j], id, t.pulledAt[j]) == Some(mem.body.record);
    EntryExactlyWhen(mem.body.record, ecos[j], since);
  }

  /** Some saving tick returned the advisory. */
  ghost predicate Returned(ticks: seq<Tick>, checkpoints: seq<Option<int>>, eco: Ecosystem, id: string, m: int) {
    exists k, e ::
      && 0 <= k < |ticks| && k < |checkpoints| && Saves(checkpoints[k], ticks[k])
      && e in Window(checkpoints[k], ticks[k]) && About(e, eco, id, m)
  }

  /**
   An advisory published from `p` on is returned by a tick that saves if and only if some tick that
   saves pulls its archive at `p` or later and finds a version there that is relevant and that the window
   begins before.
   */
  lemma ReturnedExactly(tl: Timeline, ecos: seq<Ecosystem>, ticks: seq<Tick>, checkpoints: seq<Option<int>>, j: nat, id: string, m: int, p: int)
    requires Orderly(tl) && History(ticks, checkpoints) && j < |ecos| && Distinct(ecos)
    requires forall i :: 0 <= i < |ticks| ==> Pulls(tl, ecos, ticks[i]) && OnlyPublished(tl, ticks[i])
    requires PublishedFrom(tl, ecos[j], id, m, p)
    ensures Returned(ticks, checkpoints, ecos[j], id, m)
            <==> exists k :: 0 <= k < |ticks| && Saves(checkpoints[k], ticks[k]) && InTime(tl, ecos[j], id, p, j, checkpoints[k], ticks[k])
  {
    if Returned(ticks, checkpoints, ecos[j], id, m) {
      var k, e :| 0 <= k < |ticks| && Saves(checkpoints[k], ticks[k]) && e in Window(checkpoints[k], ticks[k]) && About(e, ecos[j], id, m);
      ReturnedInTime(tl, ecos, ticks[k], checkpoints[k], j, id, m, p, e);
    }
    if k :| 0 <= k < |ticks| && Saves(checkpoints[k], ticks[k]) && InTime(tl, ecos[j], id, p, j, checkpoints[k], ticks[k]) {
      var e := InTimeReturns(tl, ecos, ticks[k], checkpoints[k], j, id, m, p);
    }
  }

  /**
   A delay can cost an advisory: modified at 1 and published at 3, it is missing from the archive of
   the tick at 2, which saves, and outside the window of the tick at 4.
   */
  lemma DelayLoses(rec: Record, members: seq<Member>, mem: Member)
    requires Relevant(rec, Npm) && rec.modified == Some(1) && Whole(members) && mem in members && Carries(mem, rec)
    ensures var first, second := Tick(2, true, [Feed(Npm, Opened([]))], [2], NothingMatches(), true),
                                 Tick(4, true, [Feed(Npm, Opened(members))], [4], NothingMatches(), true);
            && History([first, second], [Some(0), Some(2), Some(4)])
            && Window(Some(0), first) == [] && ToEntry(rec, Npm, 0).Some?
            && forall e :: e in Window(Some(2), second) ==> e.modified != 1
  {
    var first, second := Tick(2, true, [Feed(Npm, Opened([]))], [2], NothingMatches(), true),
                         Tick(4, true, [Feed(Npm, Opened(members))], [4], NothingMatches(), true);
    assert Readable(first.feeds[0]) && Readable(second.feeds[0]);
    EntryExactlyWhen(rec, Npm, 0);
    HarvestAllMeaning(first.feeds, 0);
    HarvestAllMeaning(second.feeds, 2);
    EmptyArchive(first);
  }

  lemma EmptyArchive(t: Tick)
    requires t.feeds == [Feed(Npm, Opened([]))]
    ensures Window(Some(0), t) == []
  {
    assert t.feeds[..0] == [];
    assert HarvestAll([], 0) == [] && Harvest([], Npm, 0) == [];
  }
}

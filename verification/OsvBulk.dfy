/** The bulk advisory feed: one archive per ecosystem, read whole or reported incomplete. */
module OsvBulk {
  import opened Common
  import opened OsvTypes

  // ----- Records and entries ---------------------------------------------------------------------

  datatype Package = Package(ecosystem: string, name: string)

  datatype RecordAffected = RecordAffected(package: Option<Package>, versions: seq<string>)

  datatype Record = Record(id: string, modified: Option<int>, affected: seq<RecordAffected>)

  datatype AffectedName = AffectedName(ecosystem: Ecosystem, name: string, versions: seq<string>)

  datatype AdvisoryEntry = AdvisoryEntry(id: string, modified: int, affected: seq<AffectedName>)

  predicate Concerns(a: RecordAffected, eco: Ecosystem) {
    a.package.Some? && a.package.value.name != [] && OsvLabelToEcosystem(a.package.value.ecosystem) == Some(eco)
  }

  function NamesIn(affected: seq<RecordAffected>, eco: Ecosystem): seq<AffectedName> {
    if affected == [] then []
    else
      var last := affected[|affected| - 1];
      NamesIn(affected[..|affected| - 1], eco)
      + if Concerns(last, eco) then [AffectedName(eco, last.package.value.name, last.versions)] else []
  }

  /** A record the archive of `eco` is expected to report. */
  ghost predicate Relevant(rec: Record, eco: Ecosystem) {
    rec.id != [] && rec.modified.Some? && exists i :: 0 <= i < |rec.affected| && Concerns(rec.affected[i], eco)
  }

  function ToEntry(rec: Record, eco: Ecosystem, since: int): Option<AdvisoryEntry> {
    if rec.modified == None || rec.modified.value <= since || rec.id == [] || NamesIn(rec.affected, eco) == [] then None
    else Some(AdvisoryEntry(rec.id, rec.modified.value, NamesIn(rec.affected, eco)))
  }

  lemma {:induction false} NamesInMeaning(affected: seq<RecordAffected>, eco: Ecosystem)
    ensures NamesIn(affected, eco) != [] <==> exists i :: 0 <= i < |affected| && Concerns(affected[i], eco)
    ensures forall n :: n in NamesIn(affected, eco) <==>
                          exists a :: a in affected && Concerns(a, eco) && n == AffectedName(eco, a.package.value.name, a.versions)
  {
    if affected != [] {
      var init, last := affected[..|affected| - 1], affected[|affected| - 1];
      NamesInMeaning(init, eco);
      assert affected == init + [last];
      forall i | 0 <= i < |init| && Concerns(init[i], eco) ensures Concerns(affected[i], eco) {
      }
      forall i | 0 <= i < |affected| && Concerns(affected[i], eco) && !Concerns(last, eco) ensures Concerns(init[i], eco) {
      }
    }
  }

  /** Only the window and the ecosystem keep a record out. */
  lemma EntryExactlyWhen(rec: Record, eco: Ecosystem, since: int)
    ensures ToEntry(rec, eco, since).Some? <==> Relevant(rec, eco) && rec.modified.value > since
  {
    NamesInMeaning(rec.affected, eco);
  }

  method BulkRecordToAdvisoryEntry(rec: Record, eco: Ecosystem, since: int) returns (r: Option<AdvisoryEntry>)
    ensures r == ToEntry(rec, eco, since)
    ensures r.Some? <==> Relevant(rec, eco) && rec.modified.value > since
  {
    EntryExactlyWhen(rec, eco, since);
    if rec.modified == None || rec.modified.value <= since || rec.id == [] {
      return None;
    }
    var affected: seq<AffectedName> := [];
    for i := 0 to |rec.affected|
      invariant affected == NamesIn(rec.affected[..i], eco)
    {
      assert rec.affected[..i + 1][..i] == rec.affected[..i];
      var a := rec.affected[i];
      if a.package.Some? && a.package.value.name != [] {
        var known := OsvLabelToEcosystem(a.package.value.ecosystem);
        if known == Some(eco) {
          affected := affected + [AffectedName(eco, a.package.value.name, a.versions)];
        }
      }
    }
    assert rec.affected[..|rec.affected|] == rec.affected;
    if affected == [] {
      return None;
    }
    return Some(AdvisoryEntry(rec.id, rec.modified.value, affected));
  }

  // ----- Archives --------------------------------------------------------------------------------

  datatype Body = Unreadable | Unparseable | Parsed(record: Record)

  /** An archive member; `Broken` cannot be opened, and a name may fail to decode. */
  datatype Member = Directory | Broken | File(name: Option<string>, body: Body)

  const MAX_ENTRIES_TRUSTED_BULK: nat := 100_000

  predicate EndsWithJson(name: string) {
    |name| >= 5 && name[|name| - 5..] == ".json"
  }

  /** A member is read for a record exactly when its name is something followed by `.json`. */
  lemma RecordsAreJson(m: Member)
    ensures IsRecordMember(m) <==> m.File? && m.name.Some? && exists stem: string :: m.name.value == stem + ".json"
  {
    if IsRecordMember(m) {
      var name := m.name.value;
      assert name == name[..|name| - 5] + ".json";
    }
  }

  predicate IsRecordMember(m: Member) {
    m.File? && m.name.Some? && EndsWithJson(m.name.value)
  }

  /** The filtered conversion of every record member, in order. */
  function Harvest(members: seq<Member>, eco: Ecosystem, since: int): seq<AdvisoryEntry> {
    if members == [] then []
    else Harvest(members[..|members| - 1], eco, since) + Yield(members[|members| - 1], eco, since)
  }

  function Yield(m: Member, eco: Ecosystem, since: int): seq<AdvisoryEntry> {
    if IsRecordMember(m) && m.body.Parsed? then
      var entry := ToEntry(m.body.record, eco, since);
      if entry.Some? then [entry.value] else []
    else []
  }

  predicate MemberRead(m: Member) {
    match m
    case Directory => true
    case Broken => false
    case File(name, body) => name.Some? && (EndsWithJson(name.value) ==> body.Parsed?)
  }

  /** Nothing in the archive is out of reach. */
  ghost predicate Whole(members: seq<Member>) {
    |members| <= MAX_ENTRIES_TRUSTED_BULK && forall i :: 0 <= i < |members| ==> MemberRead(members[i])
  }

  ghost predicate ComesFrom(e: AdvisoryEntry, members: seq<Member>, eco: Ecosystem, since: int) {
    exists m :: m in members && IsRecordMember(m) && m.body.Parsed? && ToEntry(m.body.record, eco, since) == Some(e)
  }

  lemma {:induction false} HarvestMeaning(members: seq<Member>, eco: Ecosystem, since: int)
    ensures forall e :: e in Harvest(members, eco, since) <==> ComesFrom(e, members, eco, since)
  {
    if members != [] {
      var init, last := members[..|members| - 1], members[|members| - 1];
      HarvestMeaning(init, eco, since);
      assert members == init + [last];
      forall e ensures e in Harvest(members, eco, since) <==> ComesFrom(e, members, eco, since) {
        assert e in Yield(last, eco, since) <==> IsRecordMember(last) && last.body.Parsed? && ToEntry(last.body.record, eco, since) == Some(e);
        if ComesFrom(e, init, eco, since) {
          var m :| m in init && IsRecordMember(m) && m.body.Parsed? && ToEntry(m.body.record, eco, since) == Some(e);
          assert m in members;
        }
      }
    }
  }

  datatype WalkEnd = Finished(undecodableNames: nat) | CapExceeded | Corrupt

  class BulkWalk {
    var out: seq<AdvisoryEntry>
    var unreadableBodies: nat
    var unparseableRecords: nat
    var undecodableNames: nat
    var entryCapTripped: bool
    const eco: Ecosystem
    const since: int

    constructor (eco: Ecosystem, since: int)
      ensures this.eco == eco && this.since == since && out == [] && !IsIncomplete()
    {
      this.eco, this.since := eco, since;
      out, unreadableBodies, unparseableRecords, undecodableNames, entryCapTripped := [], 0, 0, 0, false;
    }

    predicate IsIncomplete()
      reads this
    {
      entryCapTripped || unreadableBodies > 0 || unparseableRecords > 0 || undecodableNames > 0
    }

    /** Offer one member with a decoded name. */
    method Visit(name: string, body: Body)
      modifies this`out, this`unreadableBodies, this`unparseableRecords
      ensures out == old(out) + Yield(File(Some(name), body), eco, since)
      ensures unreadableBodies + unparseableRecords ==
              old(unreadableBodies + unparseableRecords) + if MemberRead(File(Some(name), body)) then 0 else 1
    {
      if !EndsWithJson(name) {
        return;
      }
      match body {
        case Unreadable => unreadableBodies := unreadableBodies + 1;
        case Unparseable => unparseableRecords := unparseableRecords + 1;
        case Parsed(record) =>
          var entry := BulkRecordToAdvisoryEntry(record, eco, since);
          if entry.Some? {
            out := out + [entry.value];
          }
      }
    }

    /** What a walk over `members` that ended with `end` has tallied. */
    ghost predicate Walked(members: seq<Member>, end: WalkEnd)
      reads this
    {
      match end
      case Finished(undecodable) => Whole(members) <==> unreadableBodies + unparseableRecords + undecodable == 0
      case CapExceeded => |members| > MAX_ENTRIES_TRUSTED_BULK
      case Corrupt => !Whole(members)
    }

    /** Walk the members in order, up to the entry cap or the first that cannot be opened. */
    method IterZipEntries(members: seq<Member>) returns (end: WalkEnd, reached: nat)
      requires out == [] && unreadableBodies + unparseableRecords == 0
      modifies this`out, this`unreadableBodies, this`unparseableRecords
      ensures reached <= |members| && out == Harvest(members[..reached], eco, since)
      ensures end.Finished? ==> reached == |members| <= MAX_ENTRIES_TRUSTED_BULK
      ensures end.CapExceeded? ==> |members| > MAX_ENTRIES_TRUSTED_BULK == reached
      ensures Walked(members, end)
    {
      var undecodable := 0;
      for i := 0 to |members|
        invariant i <= MAX_ENTRIES_TRUSTED_BULK
        invariant out == Harvest(members[..i], eco, since)
        invariant (forall j :: 0 <= j < i ==> MemberRead(members[j])) <==> unreadableBodies + unparseableRecords + undecodable == 0
      {
        if i >= MAX_ENTRIES_TRUSTED_BULK {
          return CapExceeded, i;
        }
        assert members[..i + 1][..i] == members[..i];
        match members[i] {
          case Directory =>
          case Broken => return Corrupt, i;
          case File(None, _) => undecodable := undecodable + 1;
          case File(Some(name), body) => Visit(name, body);
        }
      }
      assert members[..|members|] == members;
      return Finished(undecodable), |members|;
    }

    /**
     Lower how the walk ended onto the tallies. No error and nothing tallied means that the whole
     archive was read, and the other way round; only a corrupt archive is an error.
     */
    method ClassifyZipWalk(ghost members: seq<Member>, end: WalkEnd) returns (ok: bool)
      requires Walked(members, end)
      modifies this`undecodableNames, this`entryCapTripped
      ensures ok && !IsIncomplete() <==> Whole(members) && !old(entryCapTripped)
      ensures ok <==> !end.Corrupt?
    {
      match end {
        case Finished(undecodable) =>
          undecodableNames := undecodable;
          ok := true;
        case CapExceeded =>
          entryCapTripped := true;
          ok := true;
        case Corrupt =>
          ok := false;
      }
    }
  }

  // ----- One pull --------------------------------------------------------------------------------

  datatype Fetch = Failed | Opened(members: seq<Member>)

  datatype Feed = Feed(eco: Ecosystem, fetch: Fetch)

  datatype EcosystemPull = EcosystemPull(entries: seq<AdvisoryEntry>, complete: bool)

  ghost predicate Readable(feed: Feed) {
    feed.fetch.Opened? && Whole(feed.fetch.members)
  }

  ghost predicate FromFeed(e: AdvisoryEntry, feed: Feed, since: int) {
    feed.fetch.Opened? && ComesFrom(e, feed.fetch.members, feed.eco, since)
  }

  /** A pull counts as complete exactly when nothing in the archive was out of reach. */
  method PullOneEcosystem(feed: Feed, since: int) returns (r: Option<EcosystemPull>)
    ensures r.Some? && r.value.complete <==> Readable(feed)
    ensures Readable(feed) ==> r.value.entries == Harvest(feed.fetch.members, feed.eco, since)
    ensures r.Some? ==> forall e :: e in r.value.entries ==> FromFeed(e, feed, since)
  {
    if feed.fetch.Failed? {
      return None;
    }
    var members := feed.fetch.members;
    var walk := new BulkWalk(feed.eco, since);
    var end, reached := walk.IterZipEntries(members);
    HarvestMeaning(members[..reached], feed.eco, since);
    forall e | e in walk.out ensures FromFeed(e, feed, since) {
      var m :| m in members[..reached] && IsRecordMember(m) && m.body.Parsed? && ToEntry(m.body.record, feed.eco, since) == Some(e);
      assert m in members;
    }
    assert members[..|members|] == members;
    var ok := walk.ClassifyZipWalk(members, end);
    if !ok {
      return None;
    }
    return Some(EcosystemPull(walk.out, !walk.IsIncomplete()));
  }

  function HarvestAll(feeds: seq<Feed>, since: int): seq<AdvisoryEntry> {
    if feeds == [] then []
    else
      var last := feeds[|feeds| - 1];
      HarvestAll(feeds[..|feeds| - 1], since)
      + if last.fetch.Opened? then Harvest(last.fetch.members, last.eco, since) else []
  }

  /**
   All ecosystems are reported read exactly when every archive was read whole; then the entries are
   the conversion of every record member of every archive, and in any case each entry is one.
   */
  method PullDiffSince(feeds: seq<Feed>, since: int) returns (entries: seq<AdvisoryEntry>, allOk: bool)
    ensures allOk <==> forall i :: 0 <= i < |feeds| ==> Readable(feeds[i])
    ensures allOk ==> entries == HarvestAll(feeds, since)
    ensures forall e :: e in entries ==> exists i :: 0 <= i < |feeds| && FromFeed(e, feeds[i], since)
  {
    entries, allOk := [], true;
    for i := 0 to |feeds|
      invariant Pulled(feeds, i, since, entries, allOk)
    {
      var pull := PullOneEcosystem(feeds[i], since);
      PulledOneMore(feeds, i, since, entries, allOk, pull);
      if pull.Some? {
        allOk := allOk && pull.value.complete;
        entries := entries + pull.value.entries;
      } else {
        allOk := false;
      }
    }
    assert feeds[..|feeds|] == feeds;
  }

  ghost predicate AllReadable(feeds: seq<Feed>, n: nat) {
    n <= |feeds| && forall j :: 0 <= j < n ==> Readable(feeds[j])
  }

  /** Every entry comes from one of the first `n` archives. */
  ghost predicate AllFrom(entries: seq<AdvisoryEntry>, feeds: seq<Feed>, n: nat, since: int) {
    n <= |feeds| && forall e :: e in entries ==> exists j :: 0 <= j < n && FromFeed(e, feeds[j], since)
  }

  /** What the first `n` pulls gave. */
  ghost predicate Pulled(feeds: seq<Feed>, n: nat, since: int, entries: seq<AdvisoryEntry>, allOk: bool) {
    && n <= |feeds| && (allOk <==> AllReadable(feeds, n)) && (allOk ==> entries == HarvestAll(feeds[..n], since))
    && AllFrom(entries, feeds, n, since)
  }

  lemma ReadableOneMore(feeds: seq<Feed>, n: nat)
    requires n < |feeds|
    ensures AllReadable(feeds, n + 1) <==> AllReadable(feeds, n) && Readable(feeds[n])
  {
  }

  lemma AllFromOneMore(entries: seq<AdvisoryEntry>, more: seq<AdvisoryEntry>, feeds: seq<Feed>, n: nat, since: int)
    requires AllFrom(entries, feeds, n, since) && n < |feeds| && forall e :: e in more ==> FromFeed(e, feeds[n], since)
    ensures AllFrom(entries + more, feeds, n + 1, since) && AllFrom(entries, feeds, n + 1, since)
  {
  }

  lemma PulledOneMore(feeds: seq<Feed>, n: nat, since: int, entries: seq<AdvisoryEntry>, allOk: bool, pull: Option<EcosystemPull>)
    requires n < |feeds| && Pulled(feeds, n, since, entries, allOk)
    requires pull.Some? && pull.value.complete <==> Readable(feeds[n])
    requires Readable(feeds[n]) ==> pull.value.entries == Harvest(feeds[n].fetch.members, feeds[n].eco, since)
    requires pull.Some? ==> forall e :: e in pull.value.entries ==> FromFeed(e, feeds[n], since)
    ensures pull.Some? ==> Pulled(feeds, n + 1, since, entries + pull.value.entries, allOk && pull.value.complete)
    ensures pull.None? ==> Pulled(feeds, n + 1, since, entries, false)
  {
    ReadableOneMore(feeds, n);
    HarvestOneMore(feeds, n, since);
    AllFromOneMore(entries, if pull.Some? then pull.value.entries else [], feeds, n, since);
  }

  lemma HarvestOneMore(feeds: seq<Feed>, n: nat, since: int)
    requires n < |feeds|
    ensures HarvestAll(feeds[..n + 1], since)
            == HarvestAll(feeds[..n], since) + if feeds[n].fetch.Opened? then Harvest(feeds[n].fetch.members, feeds[n].eco, since) else []
  {
    assert feeds[..n + 1][..n] == feeds[..n];
  }

  lemma {:induction false} HarvestAllMeaning(feeds: seq<Feed>, since: int)
    ensures forall e :: e in HarvestAll(feeds, since) <==> exists i :: 0 <= i < |feeds| && FromFeed(e, feeds[i], since)
  {
    if feeds != [] {
      var init, last := feeds[..|feeds| - 1], feeds[|feeds| - 1];
      HarvestAllMeaning(init, since);
      if last.fetch.Opened? {
        HarvestMeaning(last.fetch.members, last.eco, since);
      }
      assert forall i :: 0 <= i < |init| ==> feeds[i] == init[i];
    }
  }
}

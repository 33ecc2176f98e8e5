/** The watch over the bulk feed: ticks that move a checkpoint only past windows they read whole. */
module OsvWatch {
  import opened Common
  import opened OsvTypes
  import opened OsvBulk
  import opened OsvEnqueue

  /** A day, in nanoseconds. */
  const COLD_START_WINDOW: int := 24 * 3600 * 1_000_000_000

  /**
   One tick: the instant it started, whether the checkpoint could be read, what each configured archive
   gave and when it was pulled, how the repositories answered, and whether the checkpoint could be
   written.
   */
  datatype Tick = Tick(now: int, starts: bool, feeds: seq<Feed>, pulledAt: seq<int>, inventory: Inventory, writes: bool)

  function Since(checkpoint: Option<int>, now: int): int {
    if checkpoint.Some? then checkpoint.value else now - COLD_START_WINDOW
  }

  /** The entries of a tick's window, from archives that were all read. */
  function Window(checkpoint: Option<int>, t: Tick): seq<AdvisoryEntry> {
    HarvestAll(t.feeds, Since(checkpoint, t.now))
  }

  ghost predicate Saves(checkpoint: Option<int>, t: Tick) {
    && t.starts && t.writes
    && (forall i :: 0 <= i < |t.feeds| ==> Readable(t.feeds[i]))
    && Reached(t.inventory, Window(checkpoint, t), Since(checkpoint, t.now))
  }

  ghost function After(checkpoint: Option<int>, t: Tick): Option<int> {
    if Saves(checkpoint, t) then Some(t.now) else checkpoint
  }

  class AdvisoryWatch {
    var checkpoint: Option<int>
    const queue: ScanQueue

    constructor (checkpoint: Option<int>, queue: ScanQueue)
      ensures this.checkpoint == checkpoint && this.queue == queue
    {
      this.checkpoint, this.queue := checkpoint, queue;
    }

    /**
     The checkpoint moves only when every archive was read whole and a scan is queued for everything
     the window matches; a tick that fails half way loses no job and queues nothing unasked.
     */
    method RunTick(t: Tick) returns (entries: seq<AdvisoryEntry>, enqueued: nat)
      modifies this`checkpoint, queue
      ensures checkpoint == After(old(checkpoint), t)
      ensures Saves(old(checkpoint), t) ==>
                entries == Window(old(checkpoint), t) && Wants(t.inventory, entries, Since(old(checkpoint), t.now)) <= queue.jobs.Keys
      ensures Grew(t.inventory, old(queue.jobs), queue.jobs, Wants(t.inventory, entries, Since(old(checkpoint), t.now)))
      ensures |queue.jobs.Keys| == |old(queue.jobs).Keys| + enqueued
      ensures forall e :: e in entries ==> exists i :: 0 <= i < |t.feeds| && FromFeed(e, t.feeds[i], Since(old(checkpoint), t.now))
    {
      entries, enqueued := [], 0;
      if !t.starts {
        return;
      }
      var since := Since(checkpoint, t.now);
      var allOk, handled;
      entries, allOk := PullDiffSince(t.feeds, since);
      handled, enqueued := queue.EnqueueAll(t.inventory, entries, since);
      if handled && allOk && t.writes {
        checkpoint := Some(t.now);
      }
    }
  }

  /** The checkpoints before, between and after a run of ticks. */
  ghost predicate History(ticks: seq<Tick>, checkpoints: seq<Option<int>>) {
    && |checkpoints| == |ticks| + 1
    && forall k :: 0 <= k < |ticks| ==> checkpoints[k + 1] == After(checkpoints[k], ticks[k])
  }

  // ----- What the feed publishes -----------------------------------------------------------------

  /** The version of an advisory an ecosystem publishes at an instant. */
  type Timeline = (Ecosystem, string, int) -> Option<Record>

  /** Versions carry the advisory's id, are not from the future, and are replaced only by newer ones. */
  ghost predicate Orderly(tl: Timeline) {
    && (forall eco, id, t :: tl(eco, id, t).Some? ==>
          tl(eco, id, t).value.id == id && tl(eco, id, t).value.modified.Some? && tl(eco, id, t).value.modified.value <= t)
    && (forall eco, id, t, t' :: t <= t' && tl(eco, id, t).Some? ==>
          tl(eco, id, t').Some? && tl(eco, id, t').value.modified.value >= tl(eco, id, t).value.modified.value)
  }

  /** The member that carries a record, whether or not it can be read. */
  predicate Carries(m: Member, rec: Record) {
    match m
    case Directory => false
    case Broken => true
    case File(name, body) => (name.Some? ==> EndsWithJson(name.value)) && (body.Parsed? ==> body.record == rec)
  }

  ghost predicate Mirrors(tl: Timeline, eco: Ecosystem, at: int, members: seq<Member>) {
    forall id :: tl(eco, id, at).Some? ==> exists m :: m in members && Carries(m, tl(eco, id, at).value)
  }

  /** Each tick pulls every configured archive after it starts and gets what is then published. */
  ghost predicate Pulls(tl: Timeline, ecos: seq<Ecosystem>, t: Tick) {
    && |t.feeds| == |ecos| == |t.pulledAt|
    && forall i :: 0 <= i < |ecos| ==>
         && t.feeds[i].eco == ecos[i] && t.pulledAt[i] >= t.now
         && (t.feeds[i].fetch.Opened? ==> Mirrors(tl, ecos[i], t.pulledAt[i], t.feeds[i].fetch.members))
  }

  // ----- Nothing is lost -------------------------------------------------------------------------

  /** Some saving tick read the window that holds `m`. */
  lemma {:induction false} WindowOf(ticks: seq<Tick>, checkpoints: seq<Option<int>>, a: nat, b: nat, m: int) returns (k: nat)
    requires History(ticks, checkpoints) && a < b <= |ticks|
    requires checkpoints[a].Some? || Saves(checkpoints[a], ticks[a])
    requires Since(checkpoints[a], ticks[a].now) < m && checkpoints[b].Some? && m <= checkpoints[b].value
    ensures a <= k < b && Saves(checkpoints[k], ticks[k]) && Since(checkpoints[k], ticks[k].now) < m <= ticks[k].now
    decreases b - a
  {
    if Saves(checkpoints[a], ticks[a]) && m <= ticks[a].now {
      k := a;
    } else {
      k := WindowOf(ticks, checkpoints, a + 1, b, m);
    }
  }

  lemma WholeCarries(members: seq<Member>, eco: Ecosystem, since: int, m: Member, rec: Record)
    requires Whole(members) && m in members && Carries(m, rec)
    requires Relevant(rec, eco) && rec.modified.value > since
    ensures ToEntry(rec, eco, since).Some?
    ensures ComesFrom(ToEntry(rec, eco, since).value, members, eco, since)
  {
    EntryExactlyWhen(rec, eco, since);
    var i :| 0 <= i < |members| && members[i] == m;
    assert MemberRead(members[i]);
    assert IsRecordMember(m) && m.body == Parsed(rec);
  }

  /** No tick that starts at `m` or later pulls archive `j` before `p` and saves. Without a delay there is none. */
  ghost predicate NoneAhead(ticks: seq<Tick>, checkpoints: seq<Option<int>>, a: nat, b: nat, j: nat, m: int, p: int) {
    b <= |ticks| && b <= |checkpoints| && forall i :: a <= i < b && Saves(checkpoints[i], ticks[i]) && m <= ticks[i].now ==>
      j < |ticks[i].pulledAt| && p <= ticks[i].pulledAt[j]
  }

  lemma NoDelayNoneAhead(tl: Timeline, ecos: seq<Ecosystem>, ticks: seq<Tick>, checkpoints: seq<Option<int>>, a: nat, b: nat, j: nat, m: int)
    requires (forall i :: 0 <= i < |ticks| ==> Pulls(tl, ecos, ticks[i])) && j < |ecos| && b <= |ticks| && b <= |checkpoints|
    ensures NoneAhead(ticks, checkpoints, a, b, j, m, m)
  {
    forall i | a <= i < b && m <= ticks[i].now ensures j < |ticks[i].pulledAt| && m <= ticks[i].pulledAt[j] {
      assert Pulls(tl, ecos, ticks[i]);
    }
  }

  /**
   No advisory is lost across ticks. Whatever was modified between an early checkpoint and a later
   one, and published before any tick since pulled its archive and saved, was read by a tick in
   between: that tick returned the version published when it pulled, which is this one or a newer one,
   unless the conversion filter rejects that version, and every artifact the version matches was among
   those the tick queues.
   */
  lemma NoAdvisoryLost(tl: Timeline, ecos: seq<Ecosystem>, ticks: seq<Tick>, checkpoints: seq<Option<int>>,
                       a: nat, b: nat, j: nat, id: string, m: int, p: int)
    returns (k: nat, version: Record)
    requires Orderly(tl) && History(ticks, checkpoints) && forall i :: 0 <= i < |ticks| ==> Pulls(tl, ecos, ticks[i])
    requires a < b <= |ticks| && j < |ecos|
    requires checkpoints[a].Some? || Saves(checkpoints[a], ticks[a])
    requires Since(checkpoints[a], ticks[a].now) < m && checkpoints[b].Some? && m <= checkpoints[b].value
    requires tl(ecos[j], id, p).Some? && tl(ecos[j], id, p).value.modified == Some(m)
    requires NoneAhead(ticks, checkpoints, a, b, j, m, p)
    ensures a <= k < b && Saves(checkpoints[k], ticks[k]) && j < |ticks[k].pulledAt|
    ensures Some(version) == tl(ecos[j], id, ticks[k].pulledAt[j])
    ensures version.id == id && version.modified.Some? && version.modified.value >= m
    ensures Relevant(version, ecos[j]) ==>
              var since := Since(checkpoints[k], ticks[k].now);
              && ToEntry(version, ecos[j], since).Some?
              && ToEntry(version, ecos[j], since).value in Window(checkpoints[k], ticks[k])
              && forall pkg :: pkg in NamesIn(version.affected, ecos[j]) ==>
                   PackageWants(ticks[k].inventory, pkg) <= Wants(ticks[k].inventory, Window(checkpoints[k], ticks[k]), since)
  {
    k := WindowOf(ticks, checkpoints, a, b, m);
    var t, since := ticks[k], Since(checkpoints[k], ticks[k].now);
    var feed, at := t.feeds[j], t.pulledAt[j];
    assert Readable(feed) && Mirrors(tl, ecos[j], at, feed.fetch.members);
    assert tl(ecos[j], id, at).Some?;
    version := tl(ecos[j], id, at).value;
    var carrier :| carrier in feed.fetch.members && Carries(carrier, version);
    if Relevant(version, ecos[j]) {
      WholeCarries(feed.fetch.members, ecos[j], since, carrier, version);
      HarvestAllMeaning(t.feeds, since);
      var e := ToEntry(version, ecos[j], since).value;
      assert FromFeed(e, t.feeds[j], since);
      EntryIsWanted(t.inventory, Window(checkpoints[k], t), since, e);
    }
  }

  /** Whatever a fresh entry matches is wanted. */
  lemma EntryIsWanted(inv: Inventory, entries: seq<AdvisoryEntry>, since: int, e: AdvisoryEntry)
    requires e in entries && e.modified > since
    ensures forall p :: p in e.affected ==> PackageWants(inv, p) <= Wants(inv, entries, since)
  {
    forall p, a | p in e.affected && a in PackageWants(inv, p) ensures a in Wants(inv, entries, since) {
      assert a in EntryWants(inv, e, since);
    }
  }

  /** What a record is returned as. */
  function EntryOf(rec: Record, eco: Ecosystem): AdvisoryEntry
    requires rec.modified.Some?
  {
    AdvisoryEntry(rec.id, rec.modified.value, NamesIn(rec.affected, eco))
  }

  /** A record still published when the tick that reads its window pulls is returned itself. */
  lemma CurrentRecordReturned(tl: Timeline, ecos: seq<Ecosystem>, ticks: seq<Tick>, checkpoints: seq<Option<int>>,
                              a: nat, b: nat, j: nat, rec: Record, m: int, p: int)
    returns (k: nat)
    requires Orderly(tl) && History(ticks, checkpoints) && forall i :: 0 <= i < |ticks| ==> Pulls(tl, ecos, ticks[i])
    requires a < b <= |ticks| && j < |ecos|
    requires checkpoints[a].Some? || Saves(checkpoints[a], ticks[a])
    requires Since(checkpoints[a], ticks[a].now) < m && checkpoints[b].Some? && m <= checkpoints[b].value
    requires Relevant(rec, ecos[j]) && rec.modified == Some(m) && tl(ecos[j], rec.id, p) == Some(rec)
    requires NoneAhead(ticks, checkpoints, a, b, j, m, p)
    ensures a <= k < b && j < |ticks[k].pulledAt|
    ensures tl(ecos[j], rec.id, ticks[k].pulledAt[j]) == Some(rec) ==>
              EntryOf(rec, ecos[j]) in Window(checkpoints[k], ticks[k])
  {
    var version;
    k, version := NoAdvisoryLost(tl, ecos, ticks, checkpoints, a, b, j, rec.id, m, p);
  }

  // ----- Without a stored checkpoint -------------------------------------------------------------

  lemma HarvestIsNewer(feeds: seq<Feed>, since: int, e: AdvisoryEntry)
    requires e in HarvestAll(feeds, since)
    ensures e.modified > since
  {
    HarvestAllMeaning(feeds, since);
    var i :| 0 <= i < |feeds| && FromFeed(e, feeds[i], since);
  }

  lemma {:induction false} NoneUntilSaved(ticks: seq<Tick>, checkpoints: seq<Option<int>>, a: nat, k: nat)
    requires History(ticks, checkpoints) && a <= k <= |ticks| && checkpoints[a] == None
    requires forall i :: a <= i < k ==> !Saves(checkpoints[i], ticks[i])
    ensures checkpoints[k] == None
  {
    if a < k {
      NoneUntilSaved(ticks, checkpoints, a, k - 1);
    }
  }

  /** Ticks start one after the other. */
  ghost predicate InTimeOrder(ticks: seq<Tick>) {
    forall i, j :: 0 <= i < j < |ticks| ==> ticks[i].now <= ticks[j].now
  }

  lemma {:induction false} CheckpointsAdvance(ticks: seq<Tick>, checkpoints: seq<Option<int>>, k: nat, n: nat)
    requires History(ticks, checkpoints) && InTimeOrder(ticks) && k < n <= |ticks| && Saves(checkpoints[k], ticks[k])
    ensures checkpoints[n].Some? && checkpoints[n].value >= ticks[k].now
  {
    if k + 1 < n {
      CheckpointsAdvance(ticks, checkpoints, k, n - 1);
    }
  }

  /** A readable archive that carries a record harvests it exactly when the record is newer than the window's start. */
  lemma CarriedExactly(tl: Timeline, ecos: seq<Ecosystem>, t: Tick, j: nat, rec: Record, since: int)
    requires Pulls(tl, ecos, t) && j < |ecos| && Readable(t.feeds[j])
    requires Relevant(rec, ecos[j]) && tl(ecos[j], rec.id, t.pulledAt[j]) == Some(rec)
    ensures EntryOf(rec, ecos[j]) in HarvestAll(t.feeds, since) <==> since < rec.modified.value
  {
    var e, feed := EntryOf(rec, ecos[j]), t.feeds[j];
    if e in HarvestAll(t.feeds, since) {
      HarvestIsNewer(t.feeds, since, e);
    }
    if since < rec.modified.value {
      assert Readable(feed) && Mirrors(tl, ecos[j], t.pulledAt[j], feed.fetch.members);
      var carrier :| carrier in feed.fetch.members && Carries(carrier, rec);
      WholeCarries(feed.fetch.members, ecos[j], since, carrier, rec);
      HarvestAllMeaning(t.feeds, since);
      assert FromFeed(e, t.feeds[j], since);
    }
  }

  /**
   Exactly what the missing checkpoint costs. The first tick that saves returns a record it still finds
   published if and only if the record was modified within the day before that tick; one modified
   earlier is in no later window either.
   */
  lemma ColdStartExactly(tl: Timeline, ecos: seq<Ecosystem>, ticks: seq<Tick>, checkpoints: seq<Option<int>>,
                         a: nat, k: nat, j: nat, rec: Record)
    requires History(ticks, checkpoints) && InTimeOrder(ticks) && forall i :: 0 <= i < |ticks| ==> Pulls(tl, ecos, ticks[i])
    requires a <= k < |ticks| && j < |ecos| && checkpoints[a] == None
    requires Saves(checkpoints[k], ticks[k]) && forall i :: a <= i < k ==> !Saves(checkpoints[i], ticks[i])
    requires Relevant(rec, ecos[j]) && rec.modified.value <= ticks[k].now
    requires Pulls(tl, ecos, ticks[k]) && tl(ecos[j], rec.id, ticks[k].pulledAt[j]) == Some(rec)
    ensures EntryOf(rec, ecos[j]) in Window(checkpoints[k], ticks[k])
            <==> ticks[k].now - COLD_START_WINDOW < rec.modified.value
    ensures forall n :: k < n < |ticks| ==> EntryOf(rec, ecos[j]) !in Window(checkpoints[n], ticks[n])
  {
    NoneUntilSaved(ticks, checkpoints, a, k);
    CarriedExactly(tl, ecos, ticks[k], j, rec, Since(checkpoints[k], ticks[k].now));
    forall n | k < n < |ticks| ensures EntryOf(rec, ecos[j]) !in Window(checkpoints[n], ticks[n]) {
      CheckpointsAdvance(ticks, checkpoints, k, n);
      if EntryOf(rec, ecos[j]) in Window(checkpoints[n], ticks[n]) {
        HarvestIsNewer(ticks[n].feeds, Since(checkpoints[n], ticks[n].now), EntryOf(rec, ecos[j]));
      }
    }
  }

  /** An inventory that matches nothing. */
  function NothingMatches(): Inventory {
    Inventory(_ => Got([]), _ => NotFound, _ => NotFound, _ => false)
  }

  /**
   Without a stored checkpoint the window slides with the clock: when the first tick fails, a record
   of its window that the archive still carries can be outside the window of the next, which saves.
   */
  lemma ColdStartForgets(rec: Record, members: seq<Member>, m: Member)
    requires Relevant(rec, Npm) && rec.modified == Some(0)
    requires Whole(members) && m in members && Carries(m, rec)
    ensures var first, second := Tick(0, true, [Feed(Npm, Fetch.Failed)], [0], NothingMatches(), true),
                                 Tick(COLD_START_WINDOW, true, [Feed(Npm, Opened(members))], [COLD_START_WINDOW], NothingMatches(), true);
            && History([first, second], [None, None, Some(COLD_START_WINDOW)])
            && ToEntry(rec, Npm, Since(None, first.now)).Some?
            && forall e :: e in Window(None, second) ==> e.modified != 0
  {
    var first, second := Tick(0, true, [Feed(Npm, Fetch.Failed)], [0], NothingMatches(), true),
                         Tick(COLD_START_WINDOW, true, [Feed(Npm, Opened(members))], [COLD_START_WINDOW], NothingMatches(), true);
    assert !Readable(first.feeds[0]) && Readable(second.feeds[0]);
    EntryExactlyWhen(rec, Npm, Since(None, first.now));
    HarvestAllMeaning(second.feeds, Since(None, second.now));
  }
}

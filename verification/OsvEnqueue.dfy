/** Queueing a scan of every artifact that fresh advisories match. */
module OsvEnqueue {
  import opened Common
  import opened OsvBulk

  type ArtifactId = nat
  type RepositoryId = nat

  /** What a lookup comes to. */
  datatype Answer<+T> = Got(value: T) | NotFound | Failed

  /** How the repositories answer during one tick. */
  datatype Inventory = Inventory(
    matches: AffectedName -> Answer<seq<ArtifactId>>,
    artifact: ArtifactId -> Answer<RepositoryId>,
    format: RepositoryId -> Answer<string>,
    queueFails: ArtifactId -> bool)

  datatype Job = Job(repository: RepositoryId, format: string)

  /** At most one scan job per artifact. */
  type Jobs = map<ArtifactId, Job>

  // ----- What should be queued -------------------------------------------------------------------

  /** The artifact and its repository are still there. */
  predicate Resolved(inv: Inventory, a: ArtifactId) {
    inv.artifact(a).Got? && inv.format(inv.artifact(a).value).Got?
  }

  function JobOf(inv: Inventory, a: ArtifactId): Job
    requires Resolved(inv, a)
  {
    Job(inv.artifact(a).value, inv.format(inv.artifact(a).value).value)
  }

  ghost function ArtifactWants(inv: Inventory, a: ArtifactId): set<ArtifactId> {
    if Resolved(inv, a) then {a} else {}
  }

  /** A package without listed versions matches nothing. */
  ghost function PackageWants(inv: Inventory, p: AffectedName): set<ArtifactId> {
    if p.versions == [] || !inv.matches(p).Got? then {} else set a | a in inv.matches(p).value && Resolved(inv, a)
  }

  ghost function EntryWants(inv: Inventory, e: AdvisoryEntry, since: int): set<ArtifactId> {
    if e.modified <= since then {} else set p, a | p in e.affected && a in PackageWants(inv, p) :: a
  }

  ghost function Wants(inv: Inventory, entries: seq<AdvisoryEntry>, since: int): set<ArtifactId> {
    set e, a | e in entries && a in EntryWants(inv, e, since) :: a
  }

  // ----- When nothing fails ----------------------------------------------------------------------

  predicate ArtifactReached(inv: Inventory, a: ArtifactId) {
    match inv.artifact(a)
    case Failed => false
    case NotFound => true
    case Got(r) => !inv.format(r).Failed? && (inv.format(r).Got? ==> !inv.queueFails(a))
  }

  /** A lookup by package finds some list, possibly an empty one, or fails. */
  predicate PackageReached(inv: Inventory, p: AffectedName) {
    p.versions == [] || (inv.matches(p).Got? && forall a :: a in inv.matches(p).value ==> ArtifactReached(inv, a))
  }

  predicate EntryReached(inv: Inventory, e: AdvisoryEntry, since: int) {
    e.modified <= since || forall p :: p in e.affected ==> PackageReached(inv, p)
  }

  predicate Reached(inv: Inventory, entries: seq<AdvisoryEntry>, since: int) {
    forall e :: e in entries ==> EntryReached(inv, e, since)
  }

  // ----- Queueing --------------------------------------------------------------------------------

  /** Old jobs stay as they were, and every new one is for a wanted artifact. */
  ghost predicate Grew(inv: Inventory, before: Jobs, after: Jobs, wanted: set<ArtifactId>) {
    && (forall a :: a in before ==> a in after && after[a] == before[a])
    && forall a :: a in after && a !in before ==> a in wanted && Resolved(inv, a) && after[a] == JobOf(inv, a)
  }

  lemma GrewOn(inv: Inventory, before: Jobs, middle: Jobs, after: Jobs, first: set<ArtifactId>, second: set<ArtifactId>, all: set<ArtifactId>)
    requires Grew(inv, before, middle, first) && Grew(inv, middle, after, second) && first <= all && second <= all
    ensures Grew(inv, before, after, all)
  {
  }

  ghost predicate ArtifactsDone(inv: Inventory, ids: seq<ArtifactId>, i: nat, before: Jobs, after: Jobs, all: set<ArtifactId>) {
    && i <= |ids| && Grew(inv, before, after, all)
    && forall j :: 0 <= j < i ==> ArtifactReached(inv, ids[j]) && ArtifactWants(inv, ids[j]) <= after.Keys
  }

  lemma ArtifactsOneMore(inv: Inventory, ids: seq<ArtifactId>, i: nat, before: Jobs, middle: Jobs, after: Jobs, all: set<ArtifactId>)
    requires ArtifactsDone(inv, ids, i, before, middle, all) && i < |ids|
    requires ArtifactWants(inv, ids[i]) <= all && Grew(inv, middle, after, ArtifactWants(inv, ids[i]))
    ensures Grew(inv, before, after, all)
    ensures ArtifactReached(inv, ids[i]) && ArtifactWants(inv, ids[i]) <= after.Keys
            ==> ArtifactsDone(inv, ids, i + 1, before, after, all)
  {
    GrewOn(inv, before, middle, after, all, ArtifactWants(inv, ids[i]), all);
  }

  ghost predicate PackagesDone(inv: Inventory, ps: seq<AffectedName>, i: nat, before: Jobs, after: Jobs, all: set<ArtifactId>) {
    && i <= |ps| && Grew(inv, before, after, all)
    && forall j :: 0 <= j < i ==> PackageReached(inv, ps[j]) && PackageWants(inv, ps[j]) <= after.Keys
  }

  lemma PackagesOneMore(inv: Inventory, ps: seq<AffectedName>, i: nat, before: Jobs, middle: Jobs, after: Jobs, all: set<ArtifactId>)
    requires PackagesDone(inv, ps, i, before, middle, all) && i < |ps|
    requires PackageWants(inv, ps[i]) <= all && Grew(inv, middle, after, PackageWants(inv, ps[i]))
    ensures Grew(inv, before, after, all)
    ensures PackageReached(inv, ps[i]) && PackageWants(inv, ps[i]) <= after.Keys
            ==> PackagesDone(inv, ps, i + 1, before, after, all)
  {
    GrewOn(inv, before, middle, after, all, PackageWants(inv, ps[i]), all);
  }

  ghost predicate EntriesDone(inv: Inventory, since: int, entries: seq<AdvisoryEntry>, i: nat, before: Jobs, after: Jobs, all: set<ArtifactId>) {
    && i <= |entries| && Grew(inv, before, after, all)
    && forall j :: 0 <= j < i ==> EntryReached(inv, entries[j], since) && EntryWants(inv, entries[j], since) <= after.Keys
  }

  lemma EntriesOneMore(inv: Inventory, since: int, entries: seq<AdvisoryEntry>, i: nat, before: Jobs, middle: Jobs, after: Jobs, all: set<ArtifactId>)
    requires EntriesDone(inv, since, entries, i, before, middle, all) && i < |entries|
    requires EntryWants(inv, entries[i], since) <= all && Grew(inv, middle, after, EntryWants(inv, entries[i], since))
    ensures Grew(inv, before, after, all)
    ensures EntryReached(inv, entries[i], since) && EntryWants(inv, entries[i], since) <= after.Keys
            ==> EntriesDone(inv, since, entries, i + 1, before, after, all)
  {
    GrewOn(inv, before, middle, after, all, EntryWants(inv, entries[i], since), all);
  }

  lemma PackageFinished(inv: Inventory, p: AffectedName, before: Jobs, after: Jobs)
    requires p.versions != [] && inv.matches(p).Got?
    requires ArtifactsDone(inv, inv.matches(p).value, |inv.matches(p).value|, before, after, PackageWants(inv, p))
    ensures PackageReached(inv, p) && PackageWants(inv, p) <= after.Keys
  {
  }

  lemma EntryFinished(inv: Inventory, e: AdvisoryEntry, since: int, before: Jobs, after: Jobs)
    requires e.modified > since && PackagesDone(inv, e.affected, |e.affected|, before, after, EntryWants(inv, e, since))
    ensures EntryReached(inv, e, since) && EntryWants(inv, e, since) <= after.Keys
  {
  }

  lemma AllFinished(inv: Inventory, entries: seq<AdvisoryEntry>, since: int, before: Jobs, after: Jobs)
    requires EntriesDone(inv, since, entries, |entries|, before, after, Wants(inv, entries, since))
    ensures Reached(inv, entries, since) && Wants(inv, entries, since) <= after.Keys
  {
  }

  class ScanQueue {
    var jobs: Jobs

    /** One artifact; a job that is already there is left alone. */
    method EnqueueArtifact(inv: Inventory, a: ArtifactId) returns (ok: bool, enqueued: nat)
      modifies this
      ensures ok <==> ArtifactReached(inv, a)
      ensures Grew(inv, old(jobs), jobs, ArtifactWants(inv, a)) && |jobs.Keys| == |old(jobs).Keys| + enqueued
      ensures ok ==> ArtifactWants(inv, a) <= jobs.Keys
    {
      match inv.artifact(a) {
        case Failed => return false, 0;
        case NotFound => return true, 0;
        case Got(r) =>
          match inv.format(r) {
            case Failed => return false, 0;
            case NotFound => return true, 0;
            case Got(format) =>
              if inv.queueFails(a) {
                return false, 0;
              }
              UpdatedSize(jobs, a, Job(r, format));
              if a in jobs {
                return true, 0;
              }
              jobs := jobs[a := Job(r, format)];
              return true, 1;
          }
      }
    }

    method EnqueuePackage(inv: Inventory, p: AffectedName) returns (ok: bool, enqueued: nat)
      modifies this
      ensures ok <==> PackageReached(inv, p)
      ensures Grew(inv, old(jobs), jobs, PackageWants(inv, p)) && |jobs.Keys| == |old(jobs).Keys| + enqueued
      ensures ok ==> PackageWants(inv, p) <= jobs.Keys
    {
      ok, enqueued := true, 0;
      if p.versions == [] {
        return;
      }
      var found := inv.matches(p);
      if !found.Got? {
        return false, 0;
      }
      for i := 0 to |found.value|
        invariant ok && ArtifactsDone(inv, found.value, i, old(jobs), jobs, PackageWants(inv, p))
        invariant |jobs.Keys| == |old(jobs).Keys| + enqueued
      {
        ghost var before := jobs;
        var more;
        ok, more := EnqueueArtifact(inv, found.value[i]);
        ArtifactsOneMore(inv, found.value, i, old(jobs), before, jobs, PackageWants(inv, p));
        enqueued := enqueued + more;
        if !ok {
          return;
        }
      }
      PackageFinished(inv, p, old(jobs), jobs);
    }

    method EnqueueEntry(inv: Inventory, e: AdvisoryEntry, since: int) returns (ok: bool, enqueued: nat)
      modifies this
      ensures ok <==> EntryReached(inv, e, since)
      ensures Grew(inv, old(jobs), jobs, EntryWants(inv, e, since)) && |jobs.Keys| == |old(jobs).Keys| + enqueued
      ensures ok ==> EntryWants(inv, e, since) <= jobs.Keys
    {
      ok, enqueued := true, 0;
      if e.modified <= since {
        return;
      }
      for i := 0 to |e.affected|
        invariant ok && PackagesDone(inv, e.affected, i, old(jobs), jobs, EntryWants(inv, e, since))
        invariant |jobs.Keys| == |old(jobs).Keys| + enqueued
      {
        ghost var before := jobs;
        var more;
        ok, more := EnqueuePackage(inv, e.affected[i]);
        PackagesOneMore(inv, e.affected, i, old(jobs), before, jobs, EntryWants(inv, e, since));
        enqueued := enqueued + more;
        if !ok {
          return;
        }
      }
      EntryFinished(inv, e, since, old(jobs), jobs);
    }

    /**
     Everything the entries match is queued, or a lookup or an insertion failed; in either case no job
     is lost or altered, every new one is wanted, and the count is that of the new ones.
     */
    method EnqueueAll(inv: Inventory, entries: seq<AdvisoryEntry>, since: int) returns (ok: bool, enqueued: nat)
      modifies this
      ensures ok <==> Reached(inv, entries, since)
      ensures Grew(inv, old(jobs), jobs, Wants(inv, entries, since)) && |jobs.Keys| == |old(jobs).Keys| + enqueued
      ensures ok ==> Wants(inv, entries, since) <= jobs.Keys
    {
      ok, enqueued := true, 0;
      for i := 0 to |entries|
        invariant ok && EntriesDone(inv, since, entries, i, old(jobs), jobs, Wants(inv, entries, since))
        invariant |jobs.Keys| == |old(jobs).Keys| + enqueued
      {
        ghost var before := jobs;
        var more;
        ok, more := EnqueueEntry(inv, entries[i], since);
        EntriesOneMore(inv, since, entries, i, old(jobs), before, jobs, Wants(inv, entries, since));
        enqueued := enqueued + more;
        if !ok {
          return;
        }
      }
      AllFinished(inv, entries, since, old(jobs), jobs);
    }
  }
}

/** What failed fetches do to findings: they raise severity, and they show. */
module OsvDegrade {
  import opened Common
  import opened OsvTypes
  import opened OsvFinding
  import opened OsvSpec
  import opened OsvHistory

  /** A record from which no severity can be read, as the batch endpoint returns them. */
  predicate Bare(v: OsvVuln) {
    v.severity == [] && v.databaseSpecific == None && v.affected == []
  }

  /** Findings are made by `VulnToFinding`, and the batch endpoint returns bare records. */
  ghost predicate Reads(w: World, lib: Library) {
    && (forall c, v :: w.convert(c, v) == VulnToFinding(lib, c, v))
    && (forall q, i :: 0 <= i < |w.batch(q)| ==> Bare(w.batch(q)[i]))
  }

  /** A finding whose severity could not be read: the highest one, and not informational. */
  predicate Unread(f: Finding) {
    f.severity == Critical && !f.assessed && f.cvssScore == None && f.informationalClass == None
  }

  /** `worse` is `full`, or an unread finding for the same package; never milder, never newly informational. */
  ghost predicate NoMilder(worse: Finding, full: Finding) {
    && worse.purl == full.purl
    && worse.severity.Rank() >= full.severity.Rank()
    && (IsInformational(worse) ==> IsInformational(full))
    && (worse != full ==> Unread(worse))
  }

  ghost predicate AllNoMilder(worse: seq<Finding>, full: seq<Finding>) {
    |worse| == |full| && forall i :: 0 <= i < |full| ==> NoMilder(worse[i], full[i])
  }

  lemma BareIsUnread(lib: Library, c: Component, v: OsvVuln)
    requires Bare(v)
    ensures Unread(VulnToFinding(lib, c, v))
  {
    assert AffectedFor(c, v.affected) == [];
    assert InformationalClass(c, v) == None;
  }

  lemma OneNoMilder(lib: Library, c: Component, bare: OsvVuln, full: OsvVuln)
    requires Bare(bare)
    ensures NoMilder(VulnToFinding(lib, c, bare), VulnToFinding(lib, c, full))
  {
    BareIsUnread(lib, c, bare);
  }

  lemma ReflexiveNoMilder(f: Finding)
    ensures NoMilder(f, f)
  {
  }

  lemma {:induction false} ConvertedNoMilder(w: World, lib: Library, c: Component, vulns: seq<OsvVuln>, failed: set<VulnId>)
    requires Reads(w, lib) && forall i :: 0 <= i < |vulns| ==> Bare(vulns[i])
    ensures AllNoMilder(Converted(w, c, vulns, failed), Converted(w, c, vulns, {}))
  {
    if vulns != [] {
      var v := vulns[|vulns| - 1];
      ConvertedNoMilder(w, lib, c, vulns[..|vulns| - 1], failed);
      if IdOf(v) in failed {
        OneNoMilder(lib, c, v, Hydrated(w, v));
      } else {
        ReflexiveNoMilder(w.convert(c, Hydrated(w, v)));
      }
    }
  }

  /** What lost fetches leave of a component's answer is no milder than the naive one. */
  lemma BuiltNoMilder(w: World, lib: Library, c: Component, failed: set<VulnId>)
    requires Reads(w, lib)
    ensures AllNoMilder(Built(w, c, failed), Naive(w, c))
  {
    ConvertedNoMilder(w, lib, c, w.batch(QueryOf(c)), failed);
  }

  lemma NoMilderConcat(a: seq<Finding>, a': seq<Finding>, b: seq<Finding>, b': seq<Finding>)
    requires AllNoMilder(a, a') && AllNoMilder(b, b')
    ensures AllNoMilder(a + b, a' + b')
  {
  }

  lemma {:induction false} SourcesNoMilder(w: World, lib: Library, sources: seq<Origin>)
    requires Reads(w, lib)
    ensures AllNoMilder(BuiltFrom(w, sources), NaiveFrom(w, sources))
  {
    if sources != [] {
      var front, last := sources[..|sources| - 1], sources[|sources| - 1];
      SourcesNoMilder(w, lib, front);
      BuiltNoMilder(w, lib, last.component, last.failed);
      NoMilderConcat(BuiltFrom(w, front), NaiveFrom(w, front), Built(w, last.component, last.failed), Naive(w, last.component));
    }
  }

  /**
   Over every history of queries, evictions and failing fetches, every answer is up to order the naive
   findings of its sources with some replaced by unread ones: nothing is lost, nothing is milder, and
   nothing becomes informational because a fetch failed, now or when an entry was written. Where those
   asked about before with a key of this query have the same answer, these are the naive findings.
   */
  lemma HydrationDegradesUpward(w: World, lib: Library, history: seq<Action>, moments: seq<Moment>,
                                results: seq<Option<seq<Finding>>>, n: nat)
    returns (sources: seq<Origin>)
    requires Reads(w, lib) && Recounts(w, history, moments, results) && n < |history| && history[n].Ask? && results[n].Some?
    ensures Sourced(w, history, moments, results, n, sources)
    ensures AllNoMilder(BuiltFrom(w, sources), NaiveFrom(w, sources))
    ensures Agree(w, history, n) ==> Unmixed(w, sources, AskedBy(history[n]))
  {
    sources := AnswersAreSourced(w, history, moments, results, n);
    SourcesNoMilder(w, lib, sources);
    if Agree(w, history, n) {
      AgreeUnmixed(w, history, moments, results, n, sources);
    }
  }

  lemma {:induction false} ConvertedLength(w: World, c: Component, vulns: seq<OsvVuln>, failed: set<VulnId>)
    ensures |Converted(w, c, vulns, failed)| == |vulns|
  {
    if vulns != [] {
      ConvertedLength(w, c, vulns[..|vulns| - 1], failed);
    }
  }

  lemma {:induction false} ConvertedAt(w: World, c: Component, vulns: seq<OsvVuln>, failed: set<VulnId>, i: nat)
    requires i < |vulns|
    ensures |Converted(w, c, vulns, failed)| == |vulns| && Converted(w, c, vulns, failed)[i] == w.convert(c, Seen(w, failed, vulns[i]))
  {
    if i < |vulns| - 1 {
      ConvertedAt(w, c, vulns[..|vulns| - 1], failed, i);
    } else if i > 0 {
      ConvertedAt(w, c, vulns[..|vulns| - 1], failed, 0);
    }
  }
}

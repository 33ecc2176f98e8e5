/** What a query reports for a bill of materials, said on the bill of materials alone. */
module OsvReport {
  import opened OsvTypes
  import opened OsvFinding
  import opened OsvSpec
  import opened OsvSbom
  import opened OsvDegrade

  /** What the feed answers about a listed component. */
  function FeedOn(w: World, s: SbomComponent): seq<OsvVuln>
    requires Covered(s)
  {
    w.batch(Query(name := s.name, eco := FEED_LABELS[s.ecosystem], version := s.version))
  }

  /** One finding for each advisory the feed answers with, in order, for this component's package. */
  function ReportOn(w: World, lib: Library, s: SbomComponent, failed: set<VulnId>): (r: seq<Finding>)
    requires Covered(s)
    ensures |r| == |FeedOn(w, s)| && forall f :: f in r ==> f.purl == s.purl
  {
    var c := Component(name := s.name, version := s.version, eco := FEED_LABELS[s.ecosystem], purl := s.purl);
    var vulns := FeedOn(w, s);
    seq(|vulns|, i requires 0 <= i < |vulns| => VulnToFinding(lib, c, Seen(w, failed, vulns[i])))
  }

  /** The reports on the components at these positions, one after the other. */
  function Report(w: World, lib: Library, components: seq<SbomComponent>, at: seq<nat>, failed: set<VulnId>): seq<Finding>
    requires forall j :: 0 <= j < |at| ==> at[j] < |components| && Covered(components[at[j]])
  {
    if at == [] then []
    else Report(w, lib, components, at[..|at| - 1], failed) + ReportOn(w, lib, components[at[|at| - 1]], failed)
  }

  lemma BuiltIsReport(w: World, lib: Library, c: Component, s: SbomComponent, failed: set<VulnId>)
    requires Reads(w, lib) && Carries(c, s)
    ensures Built(w, c, failed) == ReportOn(w, lib, s, failed)
  {
    var vulns := w.batch(QueryOf(c));
    ConvertedLength(w, c, vulns, failed);
    forall i | 0 <= i < |vulns| ensures Built(w, c, failed)[i] == ReportOn(w, lib, s, failed)[i] {
      ConvertedAt(w, c, vulns, failed, i);
    }
  }

  lemma {:induction false} AllBuiltIsReport(w: World, lib: Library, cs: seq<Component>, components: seq<SbomComponent>, at: seq<nat>,
                                            failed: set<VulnId>)
    requires Reads(w, lib) && CarriesAll(cs, components, at)
    ensures BuiltAll(w, cs, failed) == Report(w, lib, components, at, failed)
    decreases cs
  {
    if cs != [] {
      var n := |cs| - 1;
      AllBuiltIsReport(w, lib, cs[..n], components, at[..n], failed);
      BuiltIsReport(w, lib, cs[n], components[at[n]], failed);
    }
  }

  /**
   The naive answer for a bill of materials is the report on each named component of a covered ecosystem, in
   order: the feed is asked for its name, its ecosystem as the feed calls it and its version.
   */
  lemma NaiveIsReport(w: World, lib: Library, components: seq<SbomComponent>) returns (at: seq<nat>)
    requires Reads(w, lib)
    ensures ListsCovered(components, at) && CarriesAll(Prepared(components), components, at)
    ensures NaiveAll(w, Prepared(components)) == Report(w, lib, components, at, {})
  {
    at := PreparedExactly(components);
    AllBuiltIsReport(w, lib, Prepared(components), components, at, {});
  }

  /** An answer is what is cached and the report on each such component that is not. */
  lemma AnswerIsReport(w: World, lib: Library, cache: Cache, components: seq<SbomComponent>, failed: set<VulnId>) returns (at: seq<nat>)
    requires Reads(w, lib)
    ensures ListsMissing(w, cache, components, at) && CarriesAll(MissesOf(w, cache, Prepared(components)), components, at)
    ensures Answered(w, cache, failed, Prepared(components))
            == HitsOf(w, cache, Prepared(components)) + Report(w, lib, components, at, failed)
  {
    at := MissesExactly(w, cache, components);
    AllBuiltIsReport(w, lib, MissesOf(w, cache, Prepared(components)), components, at, failed);
  }
}

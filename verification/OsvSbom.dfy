/** What a query asks the feed, said on the bill of materials it was given. */
module OsvSbom {
  import opened Common
  import opened OsvKeys
  import opened OsvTypes
  import opened OsvSpec

  /** The ecosystems the feed covers, under the feed's own names. */
  const FEED_LABELS: map<Ecosystem, string> := map[
    Npm := "npm", PyPI := "PyPI", Cargo := "crates.io", Maven := "Maven", Go := "Go", RubyGems := "RubyGems",
    NuGet := "NuGet", Composer := "Packagist", Hex := "Hex", Pub := "Pub", Conda := "Conda"]

  lemma LabelsExactly(eco: Ecosystem)
    ensures OsvEcosystemFor(eco) == if eco in FEED_LABELS then Some(FEED_LABELS[eco]) else None
  {
  }

  /** The feed can be asked about it. */
  predicate Covered(s: SbomComponent) {
    s.name != [] && s.ecosystem in FEED_LABELS
  }

  /** A component as it is listed. */
  ghost predicate Carries(c: Component, s: SbomComponent) {
    Covered(s) && c.name == s.name && c.eco == FEED_LABELS[s.ecosystem] && c.version == s.version && c.purl == s.purl
  }

  predicate Asks(q: Query, c: Component) {
    q.name == c.name && q.eco == c.eco && q.version == c.version
  }

  /** A question about a listed component: its name, its ecosystem as the feed calls it, its version. */
  ghost predicate AsksAbout(q: Query, s: SbomComponent) {
    Covered(s) && q.name == s.name && q.eco == FEED_LABELS[s.ecosystem] && q.version == s.version
  }

  /** The feed can be asked about it, and no findings are cached for it. */
  ghost predicate Missing(w: World, cache: Cache, s: SbomComponent) {
    && Covered(s)
    && var key := ComponentKey(w.digest, FEED_LABELS[s.ecosystem], s.name, s.version);
    key !in cache || !cache[key].FindingsBlob?
  }

  // ----- The components asked about, by position -------------------------------------------------

  /** The positions of the items of one kind, in order. */
  ghost predicate Lists<T>(items: seq<T>, kind: T -> bool, at: seq<nat>) {
    && Increasing(at) && (forall j :: 0 <= j < |at| ==> at[j] < |items| && kind(items[at[j]]))
    && forall i: nat :: i < |items| && kind(items[i]) ==> i in at
  }

  ghost predicate ListsCovered(components: seq<SbomComponent>, at: seq<nat>) {
    Lists(components, s => Covered(s), at)
  }

  ghost predicate ListsMissing(w: World, cache: Cache, components: seq<SbomComponent>, at: seq<nat>) {
    Lists(components, s => Missing(w, cache, s), at)
  }

  /** The components listed at these positions, field by field. */
  ghost predicate CarriesAll(cs: seq<Component>, components: seq<SbomComponent>, at: seq<nat>) {
    |cs| == |at| && forall j :: 0 <= j < |at| ==> at[j] < |components| && Carries(cs[j], components[at[j]])
  }

  lemma IncreasingSnoc(at: seq<nat>, n: nat)
    requires Increasing(at) && forall j :: 0 <= j < |at| ==> at[j] < n
    ensures Increasing(at + [n])
  {
  }

  lemma ListsOneMore<T>(items: seq<T>, kind: T -> bool, n: nat, at: seq<nat>)
    requires |items| == n + 1 && Lists(items[..n], kind, at)
    ensures Lists(items, kind, if kind(items[n]) then at + [n] else at)
  {
    var longer := if kind(items[n]) then at + [n] else at;
    IncreasingSnoc(at, n);
    forall j | 0 <= j < |longer| ensures longer[j] < |items| && kind(items[longer[j]]) {
      if j < |at| {
        assert items[..n][at[j]] == items[at[j]];
      }
    }
    forall i: nat | i < |items| && kind(items[i]) ensures i in longer {
      if i < n {
        assert items[..n][i] == items[i];
      } else if kind(items[n]) {
        assert longer[|at|] == n;
      }
    }
  }

  lemma PreparedByLabel(components: seq<SbomComponent>, n: nat, label_: Option<string>)
    requires |components| == n + 1 && OsvEcosystemFor(components[n].ecosystem) == label_
    ensures var last, front := components[n], Prepared(components[..n]);
            Prepared(components) ==
              if last.name != [] && label_.Some? then front + [Component(last.name, last.version, label_.value, last.purl)] else front
  {
  }

  lemma PreparedOneMore(components: seq<SbomComponent>, n: nat) returns (c: Component)
    requires |components| == n + 1
    ensures Covered(components[n]) ==> Carries(c, components[n]) && Prepared(components) == Prepared(components[..n]) + [c]
    ensures !Covered(components[n]) ==> Prepared(components) == Prepared(components[..n])
  {
    var last := components[n];
    var label_ := OsvEcosystemFor(last.ecosystem);
    LabelsExactly(last.ecosystem);
    PreparedByLabel(components, n, label_);
    c := Component(last.name, last.version, if label_.Some? then label_.value else [], last.purl);
  }

  lemma CarriesFront(cs: seq<Component>, components: seq<SbomComponent>, n: nat, at: seq<nat>)
    requires n <= |components| && CarriesAll(cs, components[..n], at)
    ensures CarriesAll(cs, components, at)
  {
    forall j | 0 <= j < |at| ensures at[j] < |components| && Carries(cs[j], components[at[j]]) {
      assert components[..n][at[j]] == components[at[j]];
    }
  }

  lemma CarriesSnoc(cs: seq<Component>, components: seq<SbomComponent>, at: seq<nat>, c: Component, n: nat)
    requires CarriesAll(cs, components, at) && n < |components| && Carries(c, components[n])
    ensures CarriesAll(cs + [c], components, at + [n])
  {
  }

  lemma KeptOneMore(components: seq<SbomComponent>, n: nat, before: seq<nat>, covered: bool) returns (at: seq<nat>)
    requires |components| == n + 1 && covered == Covered(components[n]) && CarriesAll(Prepared(components[..n]), components[..n], before)
    ensures at == (if covered then before + [n] else before) && CarriesAll(Prepared(components), components, at)
  {
    var front := Prepared(components[..n]);
    var c := PreparedOneMore(components, n);
    CarriesFront(front, components, n, before);
    if covered {
      CarriesSnoc(front, components, before, c, n);
    }
    at := if covered then before + [n] else before;
  }

  /** Exactly the covered components are kept, in order, with all their fields. */
  lemma {:induction false} PreparedExactly(components: seq<SbomComponent>) returns (at: seq<nat>)
    ensures ListsCovered(components, at) && CarriesAll(Prepared(components), components, at)
  {
    if components == [] {
      at := [];
    } else {
      var n := |components| - 1;
      var before := PreparedExactly(components[..n]);
      ListsOneMore(components, s => Covered(s), n, before);
      at := KeptOneMore(components, n, before, Covered(components[n]));
    }
  }

  lemma CarriedIsHit(w: World, cache: Cache, c: Component, s: SbomComponent)
    requires Carries(c, s)
    ensures Hit(w, cache, c) == None <==> Missing(w, cache, s)
  {
  }

  lemma {:induction false} MissesAt(w: World, cache: Cache, components: seq<SbomComponent>, cs: seq<Component>, all: seq<nat>)
    returns (at: seq<nat>)
    requires CarriesAll(cs, components, all) && Increasing(all)
    ensures Increasing(at) && CarriesAll(MissesOf(w, cache, cs), components, at)
    ensures forall i :: i in at <==> i in all && Missing(w, cache, components[i])
    decreases cs
  {
    if cs == [] {
      at := [];
    } else {
      var n := |cs| - 1;
      at := MissesAt(w, cache, components, cs[..n], all[..n]);
      CarriedIsHit(w, cache, cs[n], components[all[n]]);
      assert all == all[..n] + [all[n]];
      if Hit(w, cache, cs[n]) == None {
        IncreasingSnoc(at, all[n]);
        at := at + [all[n]];
      }
    }
  }

  /**
   The questions a query posted: one for each covered component that is not cached, in order, each about
   that component; all of them if the query was answered, and the first of them otherwise.
   */
  ghost predicate PostedFor(w: World, cache: Cache, components: seq<SbomComponent>, posted: seq<Query>, answered: bool) {
    exists at :: PostedAt(w, cache, components, posted, at) && (answered ==> |posted| == |at|)
  }

  ghost predicate PostedAt(w: World, cache: Cache, components: seq<SbomComponent>, posted: seq<Query>, at: seq<nat>) {
    && ListsMissing(w, cache, components, at) && |posted| <= |at|
    && forall j :: 0 <= j < |posted| ==> AsksAbout(posted[j], components[at[j]])
  }

  lemma AskedIsListed(w: World, cache: Cache, components: seq<SbomComponent>, misses: seq<Component>, at: seq<nat>, posted: seq<Query>)
    requires ListsMissing(w, cache, components, at) && CarriesAll(misses, components, at)
    requires |posted| <= |misses| && forall j :: 0 <= j < |posted| ==> Asks(posted[j], misses[j])
    ensures PostedAt(w, cache, components, posted, at)
  {
  }

  /** Exactly the covered components that are not cached are missed, in order, with all their fields. */
  lemma MissesExactly(w: World, cache: Cache, components: seq<SbomComponent>) returns (at: seq<nat>)
    ensures ListsMissing(w, cache, components, at) && CarriesAll(MissesOf(w, cache, Prepared(components)), components, at)
  {
    var all := PreparedExactly(components);
    at := MissesAt(w, cache, components, Prepared(components), all);
  }
}

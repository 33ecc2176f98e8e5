/** Whole histories of queries and evictions, and what they answer. */
module OsvHistory {
  import opened Common
  import opened OsvTypes
  import opened OsvSpec
  import opened OsvQuery

  // ----- An answer, component by component -------------------------------------------------------

  /** Where a component's part of an answer comes from: its entry's origin if it is cached, itself otherwise. */
  function SourceOf(w: World, cache: Cache, origins: Origins, failed: set<VulnId>, c: Component): Origin {
    if Hit(w, cache, c).Some? && KeyOf(w, c) in origins then origins[KeyOf(w, c)] else Origin(c, failed)
  }

  function Sources(w: World, cache: Cache, origins: Origins, failed: set<VulnId>, cs: seq<Component>): (sources: seq<Origin>)
    ensures |sources| == |cs| && forall j :: 0 <= j < |cs| ==> sources[j] == SourceOf(w, cache, origins, failed, cs[j])
  {
    if cs == [] then [] else Sources(w, cache, origins, failed, cs[..|cs| - 1]) + [SourceOf(w, cache, origins, failed, cs[|cs| - 1])]
  }

  /** What was built for the origins, one after the other. */
  function BuiltFrom(w: World, sources: seq<Origin>): seq<Finding> {
    if sources == [] then []
    else BuiltFrom(w, sources[..|sources| - 1]) + Built(w, sources[|sources| - 1].component, sources[|sources| - 1].failed)
  }

  /** The naive answers for the origins' components. */
  function NaiveFrom(w: World, sources: seq<Origin>): seq<Finding> {
    if sources == [] then [] else NaiveFrom(w, sources[..|sources| - 1]) + Naive(w, sources[|sources| - 1].component)
  }

  lemma BuiltAllAppend(w: World, cs: seq<Component>, c: Component, failed: set<VulnId>)
    ensures BuiltAll(w, cs + [c], failed) == BuiltAll(w, cs, failed) + Built(w, c, failed)
  {
    assert (cs + [c])[..|cs|] == cs;
  }

  lemma BuiltFromAppend(w: World, sources: seq<Origin>, s: Origin)
    ensures BuiltFrom(w, sources + [s]) == BuiltFrom(w, sources) + Built(w, s.component, s.failed)
  {
    assert (sources + [s])[..|sources|] == sources;
  }

  lemma Shuffled(hits: seq<Finding>, built: seq<Finding>, part: seq<Finding>)
    ensures multiset((hits + part) + built) == multiset(hits + built) + multiset(part)
    ensures multiset(hits + (built + part)) == multiset(hits + built) + multiset(part)
  {
  }

  /** Up to order, an answer is one part per component, each what was built for its source. */
  lemma {:induction false} AnswerIsArranged(w: World, cache: Cache, origins: Origins, failed: set<VulnId>, cs: seq<Component>)
    requires Truthful(w, cache, origins)
    ensures multiset(Answered(w, cache, failed, cs)) == multiset(BuiltFrom(w, Sources(w, cache, origins, failed, cs)))
  {
    if cs != [] {
      var front, last := cs[..|cs| - 1], cs[|cs| - 1];
      AnswerIsArranged(w, cache, origins, failed, front);
      assert EntryTrue(w, cache, origins, last);
      var s := SourceOf(w, cache, origins, failed, last);
      var hits, built, part := HitsOf(w, cache, front), BuiltAll(w, MissesOf(w, cache, front), failed), Built(w, s.component, s.failed);
      Shuffled(hits, built, part);
      BuiltFromAppend(w, Sources(w, cache, origins, failed, front), s);
      if Hit(w, cache, last) == None {
        BuiltAllAppend(w, MissesOf(w, cache, front), last, failed);
        assert HitsOf(w, cache, cs) == hits;
      } else {
        assert MissesOf(w, cache, cs) == MissesOf(w, cache, front);
      }
    }
  }

  // ----- Clean and unmixed answers ---------------------------------------------------------------

  /** No fetch was lost when this was built. */
  ghost predicate Clean(w: World, s: Origin) {
    !Touched(w, s.component, s.failed)
  }

  ghost predicate AllClean(w: World, sources: seq<Origin>) {
    forall j :: 0 <= j < |sources| ==> Clean(w, sources[j])
  }

  lemma {:induction false} CleanIsNaive(w: World, sources: seq<Origin>)
    requires AllClean(w, sources)
    ensures BuiltFrom(w, sources) == NaiveFrom(w, sources)
  {
    if sources != [] {
      var s := sources[|sources| - 1];
      CleanIsNaive(w, sources[..|sources| - 1]);
      assert Clean(w, s);
      UntouchedIsNaive(w, s.component, s.failed);
    }
  }

  /** Up to order, the sources have the naive findings of the components asked about. */
  ghost predicate Unmixed(w: World, sources: seq<Origin>, cs: seq<Component>) {
    multiset(NaiveFrom(w, sources)) == multiset(NaiveAll(w, cs))
  }

  /** One component's naive answer is the other's, up to order. */
  ghost predicate SameAnswer(w: World, o: Component, c: Component) {
    multiset(Naive(w, o)) == multiset(Naive(w, c))
  }

  lemma {:induction false} SameAnswersUnmixed(w: World, sources: seq<Origin>, cs: seq<Component>)
    requires |sources| == |cs| && forall j :: 0 <= j < |cs| ==> SameAnswer(w, sources[j].component, cs[j])
    ensures Unmixed(w, sources, cs)
  {
    if cs != [] {
      var n := |cs| - 1;
      SameAnswersUnmixed(w, sources[..n], cs[..n]);
      assert SameAnswer(w, sources[n].component, cs[n]);
    }
  }

  /**
   An answer none of whose entries, cached or new, lost a fetch has the naive findings of its sources. It
   is the naive answer if and only if the sources have the naive findings of the components asked about.
   */
  lemma CleanAnswerIsNaive(w: World, cache: Cache, origins: Origins, failed: set<VulnId>, cs: seq<Component>)
    requires Truthful(w, cache, origins) && AllClean(w, Sources(w, cache, origins, failed, cs))
    ensures multiset(Answered(w, cache, failed, cs)) == multiset(NaiveFrom(w, Sources(w, cache, origins, failed, cs)))
    ensures multiset(Answered(w, cache, failed, cs)) == multiset(NaiveAll(w, cs)) <==> Unmixed(w, Sources(w, cache, origins, failed, cs), cs)
  {
    AnswerIsArranged(w, cache, origins, failed, cs);
    CleanIsNaive(w, Sources(w, cache, origins, failed, cs));
  }

  // ----- Histories -------------------------------------------------------------------------------

  datatype Action = Ask(components: seq<SbomComponent>, faults: Faults) | Drop(keys: set<string>)

  ghost predicate Legitimate(w: World, a: Action) {
    a.Ask? ==> Sane(w, a.faults)
  }

  /** The components an action asks about. */
  function AskedBy(a: Action): seq<Component> {
    if a.Ask? then Prepared(a.components) else []
  }

  /** What an action met, and the fetches that failed in it. */
  datatype Moment = Moment(cache: Cache, origins: Origins, failed: set<VulnId>)

  /** An action in its moment: the cache was truthful and the answer follows from it and the failures. */
  ghost predicate Explains(w: World, a: Action, m: Moment, result: Option<seq<Finding>>) {
    && Truthful(w, m.cache, m.origins)
    && (a.Ask? && Serving(a.faults) ==> result.Some?)
    && (a.Ask? && result.Some? ==> result.value == Answered(w, m.cache, m.failed, Prepared(a.components)))
    && (forall k :: k in m.failed ==> a.Ask? && a.faults.recordFails(k))
  }

  /** What an action leaves: entries are kept or built in it for a component it asks about; an answer is written back. */
  ghost predicate Leaves(w: World, a: Action, m: Moment, result: Option<seq<Finding>>, cache: Cache, origins: Origins) {
    && OriginsFrom(w, m.origins, AskedBy(a), m.failed, origins)
    && (a.Ask? && result.Some? ==> StoredAsBuilt(w, cache, MissesOf(w, m.cache, AskedBy(a)), m.failed))
    && (a.Drop? ==> cache == m.cache - a.keys)
  }

  ghost predicate Recounts(w: World, history: seq<Action>, moments: seq<Moment>, results: seq<Option<seq<Finding>>>) {
    && |results| == |moments| == |history|
    && (moments != [] ==> moments[0].cache == map[] && moments[0].origins == map[])
    && (forall i :: 0 <= i < |history| ==> Explains(w, history[i], moments[i], results[i]))
    && forall i :: 0 < i < |history| ==>
         Leaves(w, history[i - 1], moments[i - 1], results[i - 1], moments[i].cache, moments[i].origins)
  }

  method Perform(adapter: OsvAdvisoryAdapter, a: Action) returns (result: Option<seq<Finding>>, ghost m: Moment)
    requires adapter.batchSize >= 1 && Truthful(adapter.w, adapter.cache, adapter.origins) && Legitimate(adapter.w, a)
    modifies adapter`cache, adapter`origins
    ensures Truthful(adapter.w, adapter.cache, adapter.origins)
    ensures m.cache == old(adapter.cache) && m.origins == old(adapter.origins)
    ensures Explains(adapter.w, a, m, result) && Leaves(adapter.w, a, m, result, adapter.cache, adapter.origins)
  {
    m := Moment(adapter.cache, adapter.origins, {});
    match a {
      case Ask(components, faults) =>
        var posted, requests;
        ghost var failed;
        result, posted, requests, failed := adapter.Query(components, faults);
        m := m.(failed := failed);
      case Drop(keys) =>
        adapter.Evict(keys);
        result := None;
    }
  }

  /** Any history of queries and evictions, about whatever components and with whatever faults, is accounted for. */
  method Serve(w: World, batchSize: nat, history: seq<Action>)
    returns (results: seq<Option<seq<Finding>>>, ghost moments: seq<Moment>)
    requires batchSize >= 1 && forall i :: 0 <= i < |history| ==> Legitimate(w, history[i])
    ensures Recounts(w, history, moments, results)
  {
    var adapter := new OsvAdvisoryAdapter(w, batchSize);
    results, moments := [], [];
    for i := 0 to |history|
      invariant fresh(adapter) && adapter.w == w && adapter.batchSize == batchSize && Truthful(w, adapter.cache, adapter.origins)
      invariant Recounts(w, history[..i], moments, results)
      invariant if i == 0 then adapter.cache == map[] && adapter.origins == map[]
                else Leaves(w, history[i - 1], moments[i - 1], results[i - 1], adapter.cache, adapter.origins)
    {
      var result;
      ghost var m;
      result, m := Perform(adapter, history[i]);
      RecountsOneMore(w, history, i, moments, results, m, result);
      results, moments := results + [result], moments + [m];
    }
    assert history[..|history|] == history;
  }

  lemma RecountsOneMore(w: World, history: seq<Action>, i: nat, moments: seq<Moment>, results: seq<Option<seq<Finding>>>,
                        m: Moment, result: Option<seq<Finding>>)
    requires i < |history| && Recounts(w, history[..i], moments, results) && Explains(w, history[i], m, result)
    requires if i == 0 then m.cache == map[] && m.origins == map[]
             else Leaves(w, history[i - 1], moments[i - 1], results[i - 1], m.cache, m.origins)
    ensures Recounts(w, history[..i + 1], moments + [m], results + [result])
  {
    var longer, moments', results' := history[..i + 1], moments + [m], results + [result];
    forall j | 0 < j < |longer|
      ensures Leaves(w, longer[j - 1], moments'[j - 1], results'[j - 1], moments'[j].cache, moments'[j].origins)
    {
      if j < i {
        assert Leaves(w, history[..i][j - 1], moments[j - 1], results[j - 1], moments[j].cache, moments[j].origins);
      }
    }
  }

  // ----- Where every answer comes from -----------------------------------------------------------

  /** Action `i` was a query about a component with this one's key, and built this for it. */
  ghost predicate BuiltIn(w: World, history: seq<Action>, moments: seq<Moment>, i: nat, key: string, s: Origin) {
    && i < |history| && i < |moments| && s.component in AskedBy(history[i])
    && KeyOf(w, s.component) == key && s.failed == moments[i].failed
  }

  /** The source of a component's part of answer `n`: the component itself, now, or one with its key, before. */
  ghost predicate SourceAt(w: World, history: seq<Action>, moments: seq<Moment>, n: nat, c: Component, s: Origin)
    requires n < |moments|
  {
    s == Origin(c, moments[n].failed) || exists i: nat :: i < n && BuiltIn(w, history, moments, i, KeyOf(w, c), s)
  }

  /** Answer `n` is, up to order, what was built for these sources, one for each component asked about. */
  ghost predicate Sourced(w: World, history: seq<Action>, moments: seq<Moment>, results: seq<Option<seq<Finding>>>, n: nat,
                          sources: seq<Origin>)
  {
    && n < |history| == |moments| == |results| && history[n].Ask? && results[n].Some?
    && multiset(results[n].value) == multiset(BuiltFrom(w, sources)) && |sources| == |AskedBy(history[n])|
    && forall j :: 0 <= j < |sources| ==> SourceAt(w, history, moments, n, AskedBy(history[n])[j], sources[j])
  }

  /** How what is noted of the cached answers goes on from action to action. */
  ghost predicate Chained(w: World, history: seq<Action>, moments: seq<Moment>) {
    && |moments| == |history| && (moments != [] ==> moments[0].origins == map[])
    && forall i :: 0 < i < |history| ==>
         OriginsFrom(w, moments[i - 1].origins, AskedBy(history[i - 1]), moments[i - 1].failed, moments[i].origins)
  }

  lemma RecountsChained(w: World, history: seq<Action>, moments: seq<Moment>, results: seq<Option<seq<Finding>>>)
    requires Recounts(w, history, moments, results)
    ensures Chained(w, history, moments)
  {
  }

  lemma LeftOrigin(w: World, before: Origins, cs: seq<Component>, failed: set<VulnId>, after: Origins, key: string)
    requires OriginsFrom(w, before, cs, failed, after) && key in after
    ensures (key in before && after[key] == before[key])
            || (after[key].component in cs && KeyOf(w, after[key].component) == key && after[key].failed == failed)
  {
  }

  lemma {:induction false} OriginWasBuilt(w: World, history: seq<Action>, moments: seq<Moment>, n: nat, key: string) returns (i: nat)
    requires Chained(w, history, moments) && n < |history| && key in moments[n].origins
    ensures i < n && BuiltIn(w, history, moments, i, key, moments[n].origins[key])
  {
    var m := moments[n - 1];
    LeftOrigin(w, m.origins, AskedBy(history[n - 1]), m.failed, moments[n].origins, key);
    if key in m.origins && moments[n].origins[key] == m.origins[key] {
      i := OriginWasBuilt(w, history, moments, n - 1, key);
    } else {
      i := n - 1;
    }
  }

  /**
   Over every history of queries, evictions and faults, about whatever components: an answer is, up to
   order, one part for each component asked about. A part is the naive answer with some fetches lost, for
   that component, or for one with the same key that an earlier query asked about.
   */
  lemma AnswersAreSourced(w: World, history: seq<Action>, moments: seq<Moment>, results: seq<Option<seq<Finding>>>, n: nat)
    returns (sources: seq<Origin>)
    requires Recounts(w, history, moments, results) && n < |history| && history[n].Ask? && results[n].Some?
    ensures Sourced(w, history, moments, results, n, sources)
  {
    var m, cs := moments[n], AskedBy(history[n]);
    assert Explains(w, history[n], m, results[n]);
    sources := Sources(w, m.cache, m.origins, m.failed, cs);
    AnswerIsArranged(w, m.cache, m.origins, m.failed, cs);
    RecountsChained(w, history, moments, results);
    forall j | 0 <= j < |sources| ensures SourceAt(w, history, moments, n, cs[j], sources[j]) {
      if sources[j] != Origin(cs[j], m.failed) {
        var i := OriginWasBuilt(w, history, moments, n, KeyOf(w, cs[j]));
      }
    }
  }

  // ----- When components with one key have one answer --------------------------------------------

  /** Whoever was asked about before with the key of a component of query `n` has the same answer. */
  ghost predicate Agree(w: World, history: seq<Action>, n: nat)
    requires n < |history|
  {
    forall i: nat, o, c :: i < n && o in AskedBy(history[i]) && c in AskedBy(history[n]) && KeyOf(w, o) == KeyOf(w, c) ==> SameAnswer(w, o, c)
  }

  lemma AgreeUnmixed(w: World, history: seq<Action>, moments: seq<Moment>, results: seq<Option<seq<Finding>>>, n: nat, sources: seq<Origin>)
    requires Sourced(w, history, moments, results, n, sources) && Agree(w, history, n)
    ensures Unmixed(w, sources, AskedBy(history[n]))
  {
    var cs := AskedBy(history[n]);
    forall j | 0 <= j < |cs| ensures SameAnswer(w, sources[j].component, cs[j]) {
      assert SourceAt(w, history, moments, n, cs[j], sources[j]);
      if sources[j] != Origin(cs[j], moments[n].failed) {
        var i: nat :| i < n && BuiltIn(w, history, moments, i, KeyOf(w, cs[j]), sources[j]);
      }
    }
    SameAnswersUnmixed(w, sources, cs);
  }

  // ----- When nothing failed so far --------------------------------------------------------------

  ghost predicate NoFetchFails(a: Action) {
    a.Ask? ==> forall k :: !a.faults.recordFails(k)
  }

  lemma HealthySourcesAreClean(w: World, history: seq<Action>, moments: seq<Moment>, results: seq<Option<seq<Finding>>>, n: nat,
                               sources: seq<Origin>)
    requires Recounts(w, history, moments, results) && Sourced(w, history, moments, results, n, sources)
    requires forall i :: 0 <= i <= n ==> NoFetchFails(history[i])
    ensures AllClean(w, sources)
  {
    forall j | 0 <= j < |sources| ensures Clean(w, sources[j]) {
      assert SourceAt(w, history, moments, n, AskedBy(history[n])[j], sources[j]);
      var i := n;
      if sources[j] != Origin(AskedBy(history[n])[j], moments[n].failed) {
        i :| 0 <= i < n && BuiltIn(w, history, moments, i, KeyOf(w, AskedBy(history[n])[j]), sources[j]);
      }
      assert Explains(w, history[i], moments[i], results[i]) && NoFetchFails(history[i]);
      assert sources[j].failed == {};
    }
  }

  /**
   As long as no fetch has failed, every answer of the history has the naive findings of its sources; and
   where those asked about before with a key of this query have the same answer, it is the naive one.
   */
  lemma HealthyHistoryAnswersNaively(w: World, history: seq<Action>, moments: seq<Moment>, results: seq<Option<seq<Finding>>>, n: nat)
    returns (sources: seq<Origin>)
    requires Recounts(w, history, moments, results) && n < |history|
    requires forall i :: 0 <= i <= n ==> NoFetchFails(history[i])
    requires history[n].Ask? && results[n].Some?
    ensures Sourced(w, history, moments, results, n, sources) && multiset(results[n].value) == multiset(NaiveFrom(w, sources))
    ensures Agree(w, history, n) ==> multiset(results[n].value) == multiset(NaiveAll(w, AskedBy(history[n])))
  {
    sources := AnswersAreSourced(w, history, moments, results, n);
    HealthySourcesAreClean(w, history, moments, results, n, sources);
    CleanIsNaive(w, sources);
    if Agree(w, history, n) {
      AgreeUnmixed(w, history, moments, results, n, sources);
    }
  }

  // ----- An outage outlives itself ---------------------------------------------------------------

  lemma SingleBuilt(w: World, c: Component, v: OsvVuln, failed: set<VulnId>)
    requires w.batch(QueryOf(c)) == [v]
    ensures Built(w, c, failed) == [w.convert(c, Seen(w, failed, v))]
  {
    assert [v][..0] == [] && Converted(w, c, [], failed) == [];
  }

  lemma NoneAnswered(w: World, cache: Cache, failed: set<VulnId>, cs: seq<Component>)
    requires cs == []
    ensures HitsOf(w, cache, cs) == [] && MissesOf(w, cache, cs) == [] && BuiltAll(w, cs, failed) == []
  {
  }

  /** One component that is not cached is a miss. */
  lemma SingleMiss(w: World, cache: Cache, cs: seq<Component>, failed: set<VulnId>)
    requires |cs| == 1 && Hit(w, cache, cs[0]) == None
    ensures MissesOf(w, cache, cs) == cs && Answered(w, cache, failed, cs) == Built(w, cs[0], failed)
  {
    NoneAnswered(w, cache, failed, cs[..0]);
    OneMissed(w, cache, cs);
    OneBuilt(w, cs, failed);
  }

  lemma OneMissed(w: World, cache: Cache, cs: seq<Component>)
    requires |cs| == 1 && Hit(w, cache, cs[0]) == None
    ensures MissesOf(w, cache, cs) == cs && HitsOf(w, cache, cs) == []
  {
    var none := cs[..0];
    assert MissesOf(w, cache, none) == [] && HitsOf(w, cache, none) == [];
    assert [] + [cs[0]] == cs;
  }

  lemma OneBuilt(w: World, cs: seq<Component>, failed: set<VulnId>)
    requires |cs| == 1
    ensures BuiltAll(w, cs, failed) == Built(w, cs[0], failed)
  {
    var none := cs[..0];
    assert BuiltAll(w, none, failed) == [];
  }

  /** One component that is cached is answered from the cache. */
  lemma SingleHit(w: World, cache: Cache, cs: seq<Component>, failed: set<VulnId>)
    requires |cs| == 1 && Hit(w, cache, cs[0]).Some?
    ensures Answered(w, cache, failed, cs) == Hit(w, cache, cs[0]).value
  {
    NoneAnswered(w, cache, failed, cs[..0]);
    assert MissesOf(w, cache, cs) == [] && HitsOf(w, cache, cs) == Hit(w, cache, cs[0]).value;
  }

  lemma OutageFails(w: World, c: Component, v: OsvVuln, outage: Faults, failed: set<VulnId>)
    requires w.batch(QueryOf(c)) == [v] && v.id != [] && Fetched(w, v.id).Some?
    requires FailedHere(w, map[], outage, [c], failed) && forall k :: outage.recordFails(k)
    ensures Built(w, c, failed) == [w.convert(c, v)]
  {
    assert c in [c] && v in w.batch(QueryOf(c)) && Unreachable(w, map[], outage, IdOf(v));
    SingleBuilt(w, c, v, failed);
  }

  lemma OneStored(w: World, cache: Cache, o: Component, failed: set<VulnId>)
    requires StoredAsBuilt(w, cache, [o], failed)
    ensures Hit(w, cache, o) == Some(Built(w, o, failed))
  {
    assert LastOfKey(w, [o], 0);
  }

  /** A query for one component that is not cached is answered by what is built for it, which is then cached. */
  method AskMissing(adapter: OsvAdvisoryAdapter, component: SbomComponent, ghost o: Component, f: Faults)
    returns (r: Option<seq<Finding>>, ghost failed: set<VulnId>)
    requires adapter.batchSize >= 1 && Truthful(adapter.w, adapter.cache, adapter.origins)
    requires Sane(adapter.w, f) && Serving(f) && Prepared([component]) == [o] && Hit(adapter.w, adapter.cache, o) == None
    modifies adapter`cache, adapter`origins
    ensures Truthful(adapter.w, adapter.cache, adapter.origins)
    ensures r == Some(Built(adapter.w, o, failed)) && Hit(adapter.w, adapter.cache, o) == r
    ensures FailedHere(adapter.w, old(adapter.cache), f, [o], failed) && forall k :: k in failed ==> f.recordFails(k)
  {
    var posted, requests;
    ghost var before := adapter.cache;
    r, posted, requests, failed := adapter.Query([component], f);
    SingleMiss(adapter.w, before, [o], failed);
    OneStored(adapter.w, adapter.cache, o, failed);
  }

  /** A query for one component that is cached is answered from its entry. */
  method AskCached(adapter: OsvAdvisoryAdapter, component: SbomComponent, ghost c: Component, f: Faults) returns (r: Option<seq<Finding>>)
    requires adapter.batchSize >= 1 && Truthful(adapter.w, adapter.cache, adapter.origins)
    requires Sane(adapter.w, f) && Serving(f) && Prepared([component]) == [c] && Hit(adapter.w, adapter.cache, c).Some?
    modifies adapter`cache, adapter`origins
    ensures r == Hit(adapter.w, old(adapter.cache), c)
  {
    var posted, requests;
    ghost var failed;
    r, posted, requests, failed := adapter.Query([component], f);
    SingleHit(adapter.w, old(adapter.cache), [c], failed);
  }

  /** Two queries in turn, each for one component: with one key between them, the second has the first one's answer. */
  method AskInTurn(w: World, earlier: SbomComponent, ghost o: Component, later: SbomComponent, ghost c: Component, f: Faults, f': Faults)
    returns (first: Option<seq<Finding>>, second: Option<seq<Finding>>, ghost failed: set<VulnId>)
    requires Sane(w, f) && Sane(w, f') && Serving(f) && Serving(f')
    requires Prepared([earlier]) == [o] && Prepared([later]) == [c] && KeyOf(w, o) == KeyOf(w, c)
    ensures first == second == Some(Built(w, o, failed))
    ensures FailedHere(w, map[], f, [o], failed) && forall k :: k in failed ==> f.recordFails(k)
  {
    var adapter := new OsvAdvisoryAdapter(w, 1);
    first, failed := AskMissing(adapter, earlier, o, f);
    second := AskCached(adapter, later, c, f');
  }

  /**
   What is built during an outage is written back like any other answer: a later query, with nothing
   going wrong, still answers from the abbreviated record.
   */
  method OutageOutlivesItself(w: World, component: SbomComponent, c: Component, v: OsvVuln, outage: Faults, calm: Faults)
    returns (first: Option<seq<Finding>>, second: Option<seq<Finding>>)
    requires Sane(w, outage) && Sane(w, calm) && Serving(outage) && Serving(calm)
    requires Prepared([component]) == [c]
    requires w.batch(QueryOf(c)) == [v] && v.id != [] && Fetched(w, v.id).Some?
    requires forall k :: outage.recordFails(k)
    requires forall k :: !calm.recordFails(k)
    ensures first == second == Some([w.convert(c, v)])
    ensures NaiveAll(w, [c]) == [w.convert(c, Fetched(w, v.id).value)]
  {
    ghost var failed;
    first, second, failed := AskInTurn(w, component, c, component, c, outage, calm);
    OutageFails(w, c, v, outage, failed);
    SingleBuilt(w, c, v, {});
    NaiveOfOne(w, c);
  }

  lemma NaiveOfOne(w: World, c: Component)
    ensures NaiveAll(w, [c]) == Naive(w, c)
  {
    SingleMiss(w, map[], [c], {});
  }
}

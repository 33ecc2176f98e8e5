/** Components that share a cache key: exactly when the cache is transparent, and a run in which it is not. */
module OsvShared {
  import opened Common
  import opened OsvKeys
  import opened OsvTypes
  import opened OsvFinding
  import opened OsvSpec
  import opened OsvQuery
  import opened OsvHistory
  import opened OsvDegrade

  // ----- Asking about a component ----------------------------------------------------------------

  /** A component the adapter passes on to the feed. */
  predicate Askable(c: Component) {
    c.name != [] && OsvLabelToEcosystem(c.eco).Some?
  }

  function Asking(c: Component): (s: SbomComponent)
    requires Askable(c)
  {
    SbomComponent(c.purl, c.name, c.version, OsvLabelToEcosystem(c.eco).value)
  }

  lemma AskingPrepares(c: Component)
    requires Askable(c)
    ensures Prepared([Asking(c)]) == [c]
  {
    EcosystemLabelsInverse(Asking(c).ecosystem, c.eco);
    assert Prepared([Asking(c)][..0]) == [];
  }

  /** Every request is answered from the feed, and nothing fails but the fetches of some ids. */
  function FailingFor(batch: Query -> seq<OsvVuln>, fails: string -> bool): Faults {
    Faults((n, qs) => Some(seq(|qs|, i requires 0 <= i < |qs| => batch(qs[i]))),
           n => false, n => false, n => false, n => false, (k: VulnId) => fails(k.id))
  }

  function Calm(batch: Query -> seq<OsvVuln>): Faults {
    FailingFor(batch, id => false)
  }

  lemma FailingForServes(w: World, fails: string -> bool)
    requires CollisionFree(w.digest) && IdsSeparatorFree(w)
    ensures Sane(w, FailingFor(w.batch, fails)) && Serving(FailingFor(w.batch, fails))
  {
  }

  // ----- Exactly when every history answers naively ----------------------------------------------

  ghost predicate Over(components: iset<Component>, history: seq<Action>) {
    forall i, c :: 0 <= i < |history| && c in AskedBy(history[i]) ==> c in components
  }

  ghost predicate Healthy(w: World, history: seq<Action>) {
    forall i :: 0 <= i < |history| ==> Legitimate(w, history[i]) && NoFetchFails(history[i])
  }

  ghost predicate NaiveThroughout(w: World, history: seq<Action>, results: seq<Option<seq<Finding>>>) {
    forall n :: 0 <= n < |history| && n < |results| && history[n].Ask? && results[n].Some? ==>
      multiset(results[n].value) == multiset(NaiveAll(w, AskedBy(history[n])))
  }

  /** Every history about these components in which no fetch fails is answered naively. */
  ghost predicate Transparent(w: World, components: iset<Component>) {
    forall history, moments, results ::
      Recounts(w, history, moments, results) && Over(components, history) && Healthy(w, history) ==> NaiveThroughout(w, history, results)
  }

  /** Those that share a key have the same answer. */
  ghost predicate KeysAgree(w: World, components: iset<Component>) {
    forall o, c :: o in components && c in components && KeyOf(w, o) == KeyOf(w, c) ==> SameAnswer(w, o, c)
  }

  lemma AgreeingIsNaive(w: World, components: iset<Component>, history: seq<Action>, moments: seq<Moment>, results: seq<Option<seq<Finding>>>)
    requires KeysAgree(w, components) && Recounts(w, history, moments, results) && Over(components, history) && Healthy(w, history)
    ensures NaiveThroughout(w, history, results)
  {
    forall n | 0 <= n < |history| && n < |results| && history[n].Ask? && results[n].Some?
      ensures multiset(results[n].value) == multiset(NaiveAll(w, AskedBy(history[n])))
    {
      var sources := HealthyHistoryAnswersNaively(w, history, moments, results, n);
      assert Agree(w, history, n);
    }
  }

  /** One query after the other, each about one component. */
  function InTurn(w: World, o: Component, c: Component): (history: seq<Action>)
    requires Askable(o) && Askable(c)
  {
    [Ask([Asking(o)], Calm(w.batch)), Ask([Asking(c)], Calm(w.batch))]
  }

  lemma InTurnIsHealthy(w: World, o: Component, c: Component)
    requires CollisionFree(w.digest) && IdsSeparatorFree(w) && Askable(o) && Askable(c)
    ensures Healthy(w, InTurn(w, o, c)) && AskedBy(InTurn(w, o, c)[0]) == [o] && AskedBy(InTurn(w, o, c)[1]) == [c]
  {
    FailingForServes(w, id => false);
    AskingPrepares(o);
    AskingPrepares(c);
  }

  ghost function FirstMoment(): Moment {
    Moment(map[], map[], {})
  }

  ghost function SecondMoment(w: World, o: Component): Moment {
    Moment(map[KeyOf(w, o) := FindingsBlob(Naive(w, o))], map[KeyOf(w, o) := Origin(o, {})], {})
  }

  lemma FirstOfTwo(w: World, o: Component, f: Faults)
    requires Askable(o)
    ensures Explains(w, Ask([Asking(o)], f), FirstMoment(), Some(Naive(w, o)))
    ensures Leaves(w, Ask([Asking(o)], f), FirstMoment(), Some(Naive(w, o)), SecondMoment(w, o).cache, SecondMoment(w, o).origins)
  {
    AskingPrepares(o);
    SingleMiss(w, map[], [o], {});
    assert FromNow(w, [o], {}, KeyOf(w, o), Origin(o, {}));
  }

  lemma SecondOfTwo(w: World, o: Component, c: Component, f: Faults)
    requires Askable(o) && Askable(c) && KeyOf(w, o) == KeyOf(w, c)
    ensures Explains(w, Ask([Asking(c)], f), SecondMoment(w, o), Some(Naive(w, o)))
  {
    AskingPrepares(c);
    StoreFindings(w, map[], map[], o, {});
    SingleHit(w, SecondMoment(w, o).cache, [c], {});
  }

  lemma TwoRecounted(w: World, a: Action, b: Action, m: Moment, m': Moment, r: Option<seq<Finding>>, r': Option<seq<Finding>>)
    requires m.cache == map[] && m.origins == map[] && Explains(w, a, m, r) && Explains(w, b, m', r')
    requires Leaves(w, a, m, r, m'.cache, m'.origins)
    ensures Recounts(w, [a, b], [m, m'], [r, r'])
  {
  }

  /** A query is answered with what an earlier one found for another component with the same key. */
  lemma SecondTakesFirst(w: World, o: Component, c: Component)
    requires Askable(o) && Askable(c) && KeyOf(w, o) == KeyOf(w, c)
    ensures Recounts(w, InTurn(w, o, c), [FirstMoment(), SecondMoment(w, o)], [Some(Naive(w, o)), Some(Naive(w, o))])
  {
    FirstOfTwo(w, o, Calm(w.batch));
    SecondOfTwo(w, o, c, Calm(w.batch));
    TwoRecounted(w, InTurn(w, o, c)[0], InTurn(w, o, c)[1], FirstMoment(), SecondMoment(w, o), Some(Naive(w, o)), Some(Naive(w, o)));
  }

  lemma SecondIsNaive(w: World, a: Action, b: Action, r: seq<Finding>, r': seq<Finding>, c: Component)
    requires NaiveThroughout(w, [a, b], [Some(r), Some(r')]) && b.Ask? && AskedBy(b) == [c]
    ensures multiset(r') == multiset(Naive(w, c))
  {
    var history, results := [a, b], [Some(r), Some(r')];
    assert history[1] == b && results[1] == Some(r');
    NaiveOfOne(w, c);
  }

  lemma PairOver(components: iset<Component>, history: seq<Action>, o: Component, c: Component)
    requires |history| == 2 && AskedBy(history[0]) == [o] && AskedBy(history[1]) == [c] && o in components && c in components
    ensures Over(components, history)
  {
    forall i, x | 0 <= i < |history| && x in AskedBy(history[i]) ensures x in components {
      assert x in AskedBy(history[0]) || x in AskedBy(history[1]);
      assert x == o || x == c;
    }
  }

  lemma TransparentOn(w: World, components: iset<Component>, history: seq<Action>, moments: seq<Moment>, results: seq<Option<seq<Finding>>>)
    requires Transparent(w, components) && Recounts(w, history, moments, results) && Over(components, history) && Healthy(w, history)
    ensures NaiveThroughout(w, history, results)
  {
  }

  lemma TransparentAgree(w: World, components: iset<Component>, o: Component, c: Component)
    requires CollisionFree(w.digest) && IdsSeparatorFree(w) && Transparent(w, components)
    requires o in components && c in components && Askable(o) && Askable(c) && KeyOf(w, o) == KeyOf(w, c)
    ensures SameAnswer(w, o, c)
  {
    InTurnIsHealthy(w, o, c);
    SecondTakesFirst(w, o, c);
    PairOver(components, InTurn(w, o, c), o, c);
    TransparentOn(w, components, InTurn(w, o, c), [FirstMoment(), SecondMoment(w, o)], [Some(Naive(w, o)), Some(Naive(w, o))]);
    SecondIsNaive(w, InTurn(w, o, c)[0], InTurn(w, o, c)[1], Naive(w, o), Naive(w, o), c);
  }

  /**
   Every history about a collection of components in which no fetch fails is answered naively, if and only
   if those of them that share a key have the same naive answer.
   */
  lemma TransparentExactly(w: World, components: iset<Component>)
    requires CollisionFree(w.digest) && IdsSeparatorFree(w) && forall c :: c in components ==> Askable(c)
    ensures Transparent(w, components) <==> KeysAgree(w, components)
  {
    if Transparent(w, components) {
      forall o, c | o in components && c in components && KeyOf(w, o) == KeyOf(w, c) ensures SameAnswer(w, o, c) {
        TransparentAgree(w, components, o, c);
      }
    }
    if KeysAgree(w, components) {
      forall history, moments, results | Recounts(w, history, moments, results) && Over(components, history) && Healthy(w, history)
        ensures NaiveThroughout(w, history, results)
      {
        AgreeingIsNaive(w, components, history, moments, results);
      }
    }
  }

  /** The adapter itself, asked about two components with one key in turn: the second answer is the first one's. */
  method AnswersForAnother(w: World, o: Component, c: Component)
    returns (first: Option<seq<Finding>>, second: Option<seq<Finding>>)
    requires CollisionFree(w.digest) && IdsSeparatorFree(w) && Askable(o) && Askable(c) && KeyOf(w, o) == KeyOf(w, c)
    ensures first == second == Some(Naive(w, o))
    ensures multiset(second.value) == multiset(NaiveAll(w, [c])) <==> SameAnswer(w, o, c)
  {
    FailingForServes(w, id => false);
    AskingPrepares(o);
    AskingPrepares(c);
    ghost var failed;
    first, second, failed := AskInTurn(w, Asking(o), o, Asking(c), c, Calm(w.batch), Calm(w.batch));
    assert failed == {};
    NaiveOfOne(w, c);
  }

  // ----- Which components share a key and disagree -----------------------------------------------

  /** Components that differ in the purl alone have the same answer if and only if the feed has nothing on them. */
  lemma OtherPurlAgreesExactly(w: World, lib: Library, o: Component, c: Component)
    requires Reads(w, lib) && QueryOf(o) == QueryOf(c) && o.purl != c.purl
    ensures KeyOf(w, o) == KeyOf(w, c)
    ensures SameAnswer(w, o, c) <==> w.batch(QueryOf(c)) == []
  {
    var vulns := w.batch(QueryOf(c));
    if vulns != [] {
      ConvertedAt(w, o, vulns, {}, 0);
      assert Naive(w, o)[0] in multiset(Naive(w, o)) && Naive(w, o)[0].purl == o.purl;
      PurlOfAll(w, lib, c);
      assert Naive(w, o)[0] !in multiset(Naive(w, c));
    }
  }

  lemma PurlOfAll(w: World, lib: Library, c: Component)
    requires Reads(w, lib)
    ensures forall f :: f in Naive(w, c) ==> f.purl == c.purl
  {
    var vulns := w.batch(QueryOf(c));
    forall i | 0 <= i < |Naive(w, c)| ensures Naive(w, c)[i].purl == c.purl {
      if vulns != [] {
        ConvertedAt(w, c, vulns, {}, 0);
        ConvertedAt(w, c, vulns, {}, i);
      }
    }
  }

  /**
   Separator-free components with one key are the same component, unless they differ in the purl, or one
   has no version and the other the literal `*`.
   */
  lemma ApartExactly(w: World, o: Component, c: Component)
    requires CollisionFree(w.digest) && SeparatorFree(o.eco) && SeparatorFree(o.name) && SeparatorFree(c.eco) && SeparatorFree(c.name)
    ensures KeyOf(w, o) == KeyOf(w, c) && o != c
            <==> o.eco == c.eco && o.name == c.name
                 && (if o.version == c.version then o.purl != c.purl else {o.version, c.version} == {None, Some("*")})
  {
    SharedKeyExactly(w, o, c);
  }
}

/** Exactly when no history loses a finding or makes one milder. */
module OsvUpward {
  import opened Common
  import opened OsvTypes
  import opened OsvFinding
  import opened OsvSpec
  import opened OsvHistory
  import opened OsvDegrade
  import opened OsvShared

  /** Up to order, `fs` is `full` with some findings replaced by unread ones. */
  ghost predicate Covers(fs: seq<Finding>, full: seq<Finding>) {
    exists arranged :: multiset(arranged) == multiset(fs) && AllNoMilder(arranged, full)
  }

  lemma NoMilderTransitive(a: seq<Finding>, b: seq<Finding>, c: seq<Finding>)
    requires AllNoMilder(a, b) && AllNoMilder(b, c)
    ensures AllNoMilder(a, c)
  {
    forall i | 0 <= i < |c| ensures NoMilder(a[i], c[i]) {
      assert NoMilder(a[i], b[i]) && NoMilder(b[i], c[i]);
    }
  }

  lemma TakenOut<T>(s: seq<T>, k: nat)
    requires k < |s|
    ensures multiset([s[k]] + (s[..k] + s[k + 1..])) == multiset(s)
  {
    assert s == s[..k] + ([s[k]] + s[k + 1..]);
  }

  lemma NoMilderSlice(worse: seq<Finding>, full: seq<Finding>, from: nat, to: nat)
    requires AllNoMilder(worse, full) && from <= to <= |full|
    ensures AllNoMilder(worse[from..to], full[from..to])
  {
    forall i | 0 <= i < to - from ensures NoMilder(worse[from..to][i], full[from..to][i]) {
      assert NoMilder(worse[from + i], full[from + i]);
    }
  }

  lemma WithoutOne(worse: seq<Finding>, full: seq<Finding>, k: nat)
    requires AllNoMilder(worse, full) && k < |full|
    ensures AllNoMilder(worse[..k] + worse[k + 1..], full[..k] + full[k + 1..])
  {
    NoMilderSlice(worse, full, 0, k);
    NoMilderSlice(worse, full, k + 1, |full|);
    NoMilderConcat(worse[..k], full[..k], worse[k + 1..], full[k + 1..]);
  }

  /** What lines up with a list lines up with every rearrangement of it. */
  lemma {:induction false} Realigned(worse: seq<Finding>, full: seq<Finding>, full': seq<Finding>) returns (worse': seq<Finding>)
    requires AllNoMilder(worse, full) && multiset(full') == multiset(full)
    ensures multiset(worse') == multiset(worse) && AllNoMilder(worse', full')
    decreases full'
  {
    if full' == [] {
      assert |multiset(full)| == |full|;
      worse' := worse;
    } else {
      var k := WithoutHead(full', full);
      WithoutOne(worse, full, k);
      var rest := Realigned(worse[..k] + worse[k + 1..], full[..k] + full[k + 1..], full'[1..]);
      worse' := [worse[k]] + rest;
      TakenOut(worse, k);
      HeadLinesUp(worse[k], rest, full');
    }
  }

  lemma HeadLinesUp(head: Finding, rest: seq<Finding>, full: seq<Finding>)
    requires full != [] && NoMilder(head, full[0]) && AllNoMilder(rest, full[1..])
    ensures AllNoMilder([head] + rest, full)
  {
    forall i | 0 <= i < |full| ensures NoMilder(([head] + rest)[i], full[i]) {
      if i > 0 {
        assert NoMilder(rest[i - 1], full[1..][i - 1]);
      }
    }
  }

  lemma CoversTransitive(a: seq<Finding>, b: seq<Finding>, c: seq<Finding>)
    requires Covers(a, b) && Covers(b, c)
    ensures Covers(a, c)
  {
    var x :| multiset(x) == multiset(a) && AllNoMilder(x, b);
    var y :| multiset(y) == multiset(b) && AllNoMilder(y, c);
    var z := Realigned(x, b, y);
    NoMilderTransitive(z, y, c);
  }

  lemma CoversConcat(a: seq<Finding>, a': seq<Finding>, b: seq<Finding>, b': seq<Finding>)
    requires Covers(a, a') && Covers(b, b')
    ensures Covers(a + b, a' + b')
  {
    var x :| multiset(x) == multiset(a) && AllNoMilder(x, a');
    var y :| multiset(y) == multiset(b) && AllNoMilder(y, b');
    NoMilderConcat(x, a', y, b');
    assert multiset(x + y) == multiset(a + b);
  }

  lemma CoversInAnyOrder(a: seq<Finding>, b: seq<Finding>, full: seq<Finding>)
    requires Covers(a, full) && multiset(a) == multiset(b)
    ensures Covers(b, full)
  {
    var x :| multiset(x) == multiset(a) && AllNoMilder(x, full);
    assert multiset(x) == multiset(b);
  }

  lemma CoversNothing()
    ensures Covers([], [])
  {
    var none: seq<Finding> := [];
    assert AllNoMilder(none, none);
  }

  // ----- Over every history ----------------------------------------------------------------------

  /** Whatever is built for the one covers the naive answer for the other. */
  ghost predicate StandsIn(w: World, o: Component, c: Component) {
    Covers(Naive(w, o), Naive(w, c))
  }

  lemma BuiltCovers(w: World, lib: Library, s: Origin, c: Component)
    requires Reads(w, lib) && StandsIn(w, s.component, c)
    ensures Covers(Built(w, s.component, s.failed), Naive(w, c))
  {
    BuiltNoMilder(w, lib, s.component, s.failed);
    assert Covers(Built(w, s.component, s.failed), Naive(w, s.component));
    CoversTransitive(Built(w, s.component, s.failed), Naive(w, s.component), Naive(w, c));
  }

  lemma {:induction false} SourcesCover(w: World, lib: Library, sources: seq<Origin>, cs: seq<Component>)
    requires Reads(w, lib) && |sources| == |cs| && forall j :: 0 <= j < |cs| ==> StandsIn(w, sources[j].component, cs[j])
    ensures Covers(BuiltFrom(w, sources), NaiveAll(w, cs))
  {
    if cs == [] {
      CoversNothing();
    } else {
      var n := |cs| - 1;
      SourcesCover(w, lib, sources[..n], cs[..n]);
      BuiltCovers(w, lib, sources[n], cs[n]);
      CoversConcat(BuiltFrom(w, sources[..n]), NaiveAll(w, cs[..n]), Built(w, sources[n].component, sources[n].failed), Naive(w, cs[n]));
    }
  }

  lemma ItselfStandsIn(w: World, c: Component)
    ensures StandsIn(w, c, c)
  {
    forall i | 0 <= i < |Naive(w, c)| ensures NoMilder(Naive(w, c)[i], Naive(w, c)[i]) {
      ReflexiveNoMilder(Naive(w, c)[i]);
    }
    assert AllNoMilder(Naive(w, c), Naive(w, c));
  }

  /** Every answer covers the naive one. */
  ghost predicate CoversThroughout(w: World, history: seq<Action>, results: seq<Option<seq<Finding>>>) {
    forall n :: 0 <= n < |history| && n < |results| && history[n].Ask? && results[n].Some? ==>
      Covers(results[n].value, NaiveAll(w, AskedBy(history[n])))
  }

  /** No history about these components, whatever fails in it, loses a finding or makes one milder. */
  ghost predicate Upward(w: World, components: iset<Component>) {
    forall history, moments, results ::
      Recounts(w, history, moments, results) && Over(components, history) ==> CoversThroughout(w, history, results)
  }

  ghost predicate KeysCover(w: World, components: iset<Component>) {
    forall o, c :: o in components && c in components && KeyOf(w, o) == KeyOf(w, c) ==> StandsIn(w, o, c)
  }

  lemma SourceStandsIn(w: World, components: iset<Component>, history: seq<Action>, moments: seq<Moment>, n: nat, c: Component, s: Origin)
    requires KeysCover(w, components) && Over(components, history) && n < |moments| && n < |history|
    requires c in AskedBy(history[n]) && SourceAt(w, history, moments, n, c, s)
    ensures StandsIn(w, s.component, c)
  {
    if s == Origin(c, moments[n].failed) {
      ItselfStandsIn(w, c);
    } else {
      var i: nat :| i < n && BuiltIn(w, history, moments, i, KeyOf(w, c), s);
    }
  }

  lemma CoveringIsUpward(w: World, lib: Library, components: iset<Component>, history: seq<Action>, moments: seq<Moment>,
                         results: seq<Option<seq<Finding>>>)
    requires Reads(w, lib) && KeysCover(w, components) && Recounts(w, history, moments, results) && Over(components, history)
    ensures CoversThroughout(w, history, results)
  {
    forall n | 0 <= n < |history| && n < |results| && history[n].Ask? && results[n].Some?
      ensures Covers(results[n].value, NaiveAll(w, AskedBy(history[n])))
    {
      var cs := AskedBy(history[n]);
      var sources := AnswersAreSourced(w, history, moments, results, n);
      forall j | 0 <= j < |cs| ensures StandsIn(w, sources[j].component, cs[j]) {
        SourceStandsIn(w, components, history, moments, n, cs[j], sources[j]);
      }
      SourcesCover(w, lib, sources, cs);
      CoversInAnyOrder(BuiltFrom(w, sources), results[n].value, NaiveAll(w, cs));
    }
  }

  lemma UpwardOn(w: World, components: iset<Component>, history: seq<Action>, moments: seq<Moment>, results: seq<Option<seq<Finding>>>)
    requires Upward(w, components) && Recounts(w, history, moments, results) && Over(components, history)
    ensures CoversThroughout(w, history, results)
  {
  }

  lemma SecondCovers(w: World, a: Action, b: Action, r: seq<Finding>, r': seq<Finding>, c: Component)
    requires CoversThroughout(w, [a, b], [Some(r), Some(r')]) && b.Ask? && AskedBy(b) == [c]
    ensures Covers(r', Naive(w, c))
  {
    var history, results := [a, b], [Some(r), Some(r')];
    assert history[1] == b && results[1] == Some(r');
    NaiveOfOne(w, c);
  }

  lemma UpwardCovers(w: World, components: iset<Component>, o: Component, c: Component)
    requires Upward(w, components) && o in components && c in components && Askable(o) && Askable(c) && KeyOf(w, o) == KeyOf(w, c)
    ensures StandsIn(w, o, c)
  {
    AskingPrepares(o);
    AskingPrepares(c);
    SecondTakesFirst(w, o, c);
    PairOver(components, InTurn(w, o, c), o, c);
    UpwardOn(w, components, InTurn(w, o, c), [FirstMoment(), SecondMoment(w, o)], [Some(Naive(w, o)), Some(Naive(w, o))]);
    SecondCovers(w, InTurn(w, o, c)[0], InTurn(w, o, c)[1], Naive(w, o), Naive(w, o), c);
  }

  /**
   No history about a collection of components loses a finding or makes one milder, whatever fails in it,
   if and only if, of those that share a key, each one's naive answer loses nothing of the others' and has
   nothing milder.
   */
  lemma UpwardExactly(w: World, lib: Library, components: iset<Component>)
    requires Reads(w, lib) && forall c :: c in components ==> Askable(c)
    ensures Upward(w, components) <==> KeysCover(w, components)
  {
    if Upward(w, components) {
      forall o, c | o in components && c in components && KeyOf(w, o) == KeyOf(w, c) ensures StandsIn(w, o, c) {
        UpwardCovers(w, components, o, c);
      }
    }
    if KeysCover(w, components) {
      forall history, moments, results | Recounts(w, history, moments, results) && Over(components, history)
        ensures CoversThroughout(w, history, results)
      {
        CoveringIsUpward(w, lib, components, history, moments, results);
      }
    }
  }
}

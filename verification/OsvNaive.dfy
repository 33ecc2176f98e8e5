/** Exactly when an answer is the naive one. */
module OsvNaive {
  import opened Common
  import opened OsvTypes
  import opened OsvFinding
  import opened OsvSpec
  import opened OsvHistory
  import opened OsvDegrade

  // ----- Read and unread findings ----------------------------------------------------------------

  /** The findings that are unread, or those that are not. */
  ghost function Sifted(fs: seq<Finding>, unread: bool): seq<Finding> {
    if fs == [] then []
    else Sifted(fs[..|fs| - 1], unread) + if Unread(fs[|fs| - 1]) == unread then [fs[|fs| - 1]] else []
  }

  lemma {:induction false} SiftedConcat(a: seq<Finding>, b: seq<Finding>, unread: bool)
    ensures Sifted(a + b, unread) == Sifted(a, unread) + Sifted(b, unread)
  {
    if b == [] {
      assert a + b == a;
    } else {
      SiftedConcat(a, b[..|b| - 1], unread);
      assert (a + b)[..|a + b| - 1] == a + b[..|b| - 1];
    }
  }

  lemma SiftedAround(fs: seq<Finding>, k: nat, unread: bool)
    requires k < |fs|
    ensures multiset(Sifted(fs, unread)) == multiset(Sifted(fs[..k] + fs[k + 1..], unread)) + multiset(Sifted([fs[k]], unread))
  {
    assert fs == fs[..k] + ([fs[k]] + fs[k + 1..]);
    SiftedConcat(fs[..k], [fs[k]] + fs[k + 1..], unread);
    SiftedConcat([fs[k]], fs[k + 1..], unread);
    SiftedConcat(fs[..k], fs[k + 1..], unread);
  }

  lemma {:induction false} SiftedBag(a: seq<Finding>, b: seq<Finding>, unread: bool)
    requires multiset(a) == multiset(b)
    ensures multiset(Sifted(a, unread)) == multiset(Sifted(b, unread))
    decreases a
  {
    if a == [] {
      assert |multiset(b)| == |b|;
    } else {
      var k := WithoutHead(a, b);
      SiftedBag(a[1..], b[..k] + b[k + 1..], unread);
      SiftedAround(b, k, unread);
      SiftedHead(a, unread);
    }
  }

  lemma SiftedHead(fs: seq<Finding>, unread: bool)
    requires fs != []
    ensures multiset(Sifted(fs, unread)) == multiset(Sifted(fs[1..], unread)) + multiset(Sifted([fs[0]], unread))
  {
    assert fs == [fs[0]] + fs[1..];
    SiftedConcat([fs[0]], fs[1..], unread);
  }

  lemma SiftedSnoc(front: seq<Finding>, last: Finding, unread: bool)
    ensures Sifted(front + [last], unread) == Sifted(front, unread) + if Unread(last) == unread then [last] else []
  {
    assert (front + [last])[..|front|] == front;
  }

  lemma BagStep<T>(whole: multiset<T>, a: multiset<T>, b: multiset<T>, x: T)
    requires whole == a + b
    ensures whole + multiset{x} == (a + multiset{x}) + b == a + (b + multiset{x})
  {
  }

  lemma WholeSnoc(front: seq<Finding>, last: Finding)
    requires multiset(front) == multiset(Sifted(front, true)) + multiset(Sifted(front, false))
    ensures multiset(front + [last]) == multiset(Sifted(front + [last], true)) + multiset(Sifted(front + [last], false))
  {
    SiftedSnoc(front, last, true);
    SiftedSnoc(front, last, false);
    BagStep(multiset(front), multiset(Sifted(front, true)), multiset(Sifted(front, false)), last);
  }

  lemma {:induction false} SiftedWhole(fs: seq<Finding>)
    ensures multiset(fs) == multiset(Sifted(fs, true)) + multiset(Sifted(fs, false))
  {
    if fs != [] {
      SiftedWhole(fs[..|fs| - 1]);
      assert fs == fs[..|fs| - 1] + [fs[|fs| - 1]];
      WholeSnoc(fs[..|fs| - 1], fs[|fs| - 1]);
    }
  }

  /** They differ only where nothing could be read anyway. */
  ghost predicate SameWhereRead(worse: seq<Finding>, full: seq<Finding>) {
    |worse| == |full| && forall i :: 0 <= i < |full| ==> worse[i] == full[i] || Unread(full[i])
  }

  lemma {:induction false} ReadAlike(worse: seq<Finding>, full: seq<Finding>)
    requires AllNoMilder(worse, full) && SameWhereRead(worse, full)
    ensures Sifted(worse, false) == Sifted(full, false)
    decreases worse
  {
    if worse != [] {
      ReadAlike(worse[..|worse| - 1], full[..|full| - 1]);
      assert NoMilder(worse[|worse| - 1], full[|full| - 1]);
    }
  }

  lemma {:induction false} UnreadGrows(worse: seq<Finding>, full: seq<Finding>)
    requires AllNoMilder(worse, full)
    ensures |Sifted(worse, true)| >= |Sifted(full, true)|
    ensures !SameWhereRead(worse, full) ==> |Sifted(worse, true)| > |Sifted(full, true)|
    decreases worse
  {
    if worse != [] {
      var n := |worse| - 1;
      UnreadGrows(worse[..n], full[..n]);
      assert NoMilder(worse[n], full[n]);
      if SameWhereRead(worse[..n], full[..n]) && (worse[n] == full[n] || Unread(full[n])) {
        SameOneMore(worse, full, n);
      }
    }
  }

  lemma SameOneMore(worse: seq<Finding>, full: seq<Finding>, n: nat)
    requires |worse| == |full| == n + 1 && SameWhereRead(worse[..n], full[..n]) && (worse[n] == full[n] || Unread(full[n]))
    ensures SameWhereRead(worse, full)
  {
    forall i | 0 <= i < |full| ensures worse[i] == full[i] || Unread(full[i]) {
      if i < n {
        assert worse[..n][i] == full[..n][i] || Unread(full[..n][i]);
      }
    }
  }

  /** A degraded list has the findings of the full one if and only if it differs in nothing that was read and its unread findings are the same. */
  lemma SameFindingsExactly(worse: seq<Finding>, full: seq<Finding>)
    requires AllNoMilder(worse, full)
    ensures multiset(worse) == multiset(full)
            <==> SameWhereRead(worse, full) && multiset(Sifted(worse, true)) == multiset(Sifted(full, true))
  {
    if multiset(worse) == multiset(full) {
      SiftedBag(worse, full, true);
      UnreadGrows(worse, full);
      assert |multiset(Sifted(worse, true))| == |multiset(Sifted(full, true))|;
    }
    if SameWhereRead(worse, full) {
      ReadAlike(worse, full);
      SiftedWhole(worse);
      SiftedWhole(full);
    }
  }

  /**
   Over every history, an answer has the naive findings of its sources if and only if, lined up with them,
   it differs in nothing that can be read and its unread findings are the same. Where those asked about
   before with a key of this query have the same answer, these are the naive findings.
   */
  lemma NaiveAnswerExactly(w: World, lib: Library, history: seq<Action>, moments: seq<Moment>,
                           results: seq<Option<seq<Finding>>>, n: nat)
    returns (sources: seq<Origin>)
    requires Reads(w, lib) && Recounts(w, history, moments, results) && n < |history| && history[n].Ask? && results[n].Some?
    ensures Sourced(w, history, moments, results, n, sources)
    ensures var built, full := BuiltFrom(w, sources), NaiveFrom(w, sources);
            && AllNoMilder(built, full)
            && (multiset(results[n].value) == multiset(full)
                <==> SameWhereRead(built, full) && multiset(Sifted(built, true)) == multiset(Sifted(full, true)))
    ensures Agree(w, history, n) ==> Unmixed(w, sources, AskedBy(history[n]))
  {
    sources := HydrationDegradesUpward(w, lib, history, moments, results, n);
    SameFindingsExactly(BuiltFrom(w, sources), NaiveFrom(w, sources));
  }

  // ----- When everything can be read -------------------------------------------------------------

  ghost predicate AllRead(fs: seq<Finding>) {
    forall i :: 0 <= i < |fs| ==> !Unread(fs[i])
  }

  lemma SplitWhereRead(a: seq<Finding>, b: seq<Finding>, x: seq<Finding>, y: seq<Finding>)
    requires SameWhereRead(a + b, x + y) && |b| == |y|
    ensures SameWhereRead(a, x) && SameWhereRead(b, y)
  {
    assert |a + b| == |a| + |b| && |x + y| == |x| + |y|;
    forall i | 0 <= i < |x| ensures a[i] == x[i] || Unread(x[i]) {
      assert (a + b)[i] == a[i] && (x + y)[i] == x[i];
    }
    forall i | 0 <= i < |y| ensures b[i] == y[i] || Unread(y[i]) {
      assert (a + b)[|a| + i] == b[i] && (x + y)[|a| + i] == y[i];
    }
  }

  /** What holds of whole answers, lined up, holds source by source. */
  lemma {:induction false} SourcesWhereRead(w: World, sources: seq<Origin>, j: nat)
    requires SameWhereRead(BuiltFrom(w, sources), NaiveFrom(w, sources)) && j < |sources|
    ensures SameWhereRead(Built(w, sources[j].component, sources[j].failed), Naive(w, sources[j].component))
    decreases sources
  {
    var front, last := sources[..|sources| - 1], sources[|sources| - 1];
    ConvertedLength(w, last.component, w.batch(QueryOf(last.component)), last.failed);
    ConvertedLength(w, last.component, w.batch(QueryOf(last.component)), {});
    SplitWhereRead(BuiltFrom(w, front), Built(w, last.component, last.failed), NaiveFrom(w, front), Naive(w, last.component));
    if j < |front| {
      SourcesWhereRead(w, front, j);
    }
  }

  lemma {:induction false} ReadSource(w: World, sources: seq<Origin>, j: nat)
    requires AllRead(NaiveFrom(w, sources)) && j < |sources|
    ensures AllRead(Naive(w, sources[j].component))
    decreases sources
  {
    var front, last := sources[..|sources| - 1], sources[|sources| - 1];
    ReadInParts(NaiveFrom(w, front), Naive(w, last.component));
    if j < |front| {
      ReadSource(w, front, j);
    }
  }

  lemma ReadInParts(x: seq<Finding>, y: seq<Finding>)
    requires AllRead(x + y)
    ensures AllRead(x) && AllRead(y)
  {
    assert forall i :: 0 <= i < |x| ==> (x + y)[i] == x[i];
    assert forall i :: 0 <= i < |y| ==> (x + y)[|x| + i] == y[i];
  }

  lemma ReadInAnyOrder(x: seq<Finding>, y: seq<Finding>)
    requires AllRead(x) && multiset(x) == multiset(y)
    ensures AllRead(y)
  {
    forall i | 0 <= i < |y| ensures !Unread(y[i]) {
      assert y[i] in multiset(x);
    }
  }

  lemma LostIsUnread(w: World, lib: Library, s: Origin, i: nat)
    requires Reads(w, lib) && i < |w.batch(QueryOf(s.component))| && IdOf(w.batch(QueryOf(s.component))[i]) in s.failed
    ensures |Built(w, s.component, s.failed)| == |Naive(w, s.component)| == |w.batch(QueryOf(s.component))|
    ensures Unread(Built(w, s.component, s.failed)[i])
    ensures Naive(w, s.component)[i] == VulnToFinding(lib, s.component, Hydrated(w, w.batch(QueryOf(s.component))[i]))
  {
    var vulns := w.batch(QueryOf(s.component));
    ConvertedAt(w, s.component, vulns, s.failed, i);
    ConvertedAt(w, s.component, vulns, {}, i);
    BareIsUnread(lib, s.component, vulns[i]);
  }

  /** A lost fetch of an advisory that can be read shows in what was built. */
  lemma LostShows(w: World, lib: Library, sources: seq<Origin>, j: nat, i: nat)
    requires Reads(w, lib) && j < |sources|
    requires i < |w.batch(QueryOf(sources[j].component))| && IdOf(w.batch(QueryOf(sources[j].component))[i]) in sources[j].failed
    requires !Unread(VulnToFinding(lib, sources[j].component, Hydrated(w, w.batch(QueryOf(sources[j].component))[i])))
    ensures multiset(BuiltFrom(w, sources)) != multiset(NaiveFrom(w, sources))
  {
    LostIsUnread(w, lib, sources[j], i);
    if multiset(BuiltFrom(w, sources)) == multiset(NaiveFrom(w, sources)) {
      SourcesNoMilder(w, lib, sources);
      SameFindingsExactly(BuiltFrom(w, sources), NaiveFrom(w, sources));
      SourcesWhereRead(w, sources, j);
    }
  }

  /**
   Over every history, an answer one of whose sources lost a fetch of an advisory whose severity can be
   read, now or when the entry was cached, does not have the naive findings.
   */
  lemma LostFetchShows(w: World, lib: Library, history: seq<Action>, moments: seq<Moment>, results: seq<Option<seq<Finding>>>, n: nat,
                       sources: seq<Origin>, j: nat, i: nat)
    requires Reads(w, lib) && Sourced(w, history, moments, results, n, sources) && j < |sources|
    requires var s := sources[j];
             && i < |w.batch(QueryOf(s.component))| && IdOf(w.batch(QueryOf(s.component))[i]) in s.failed
             && AssessedSeverity(lib, s.component, Hydrated(w, w.batch(QueryOf(s.component))[i])).Some?
    ensures multiset(results[n].value) != multiset(NaiveFrom(w, sources))
    ensures Agree(w, history, n) ==> multiset(results[n].value) != multiset(NaiveAll(w, AskedBy(history[n])))
  {
    LostShows(w, lib, sources, j, i);
    if Agree(w, history, n) {
      AgreeUnmixed(w, history, moments, results, n, sources);
    }
  }

  lemma NaiveMeansClean(w: World, lib: Library, sources: seq<Origin>, j: nat)
    requires Reads(w, lib) && AllRead(NaiveFrom(w, sources)) && j < |sources|
    requires multiset(BuiltFrom(w, sources)) == multiset(NaiveFrom(w, sources))
    ensures Clean(w, sources[j])
  {
    var s := sources[j];
    if Touched(w, s.component, s.failed) {
      var i: nat :| i < |w.batch(QueryOf(s.component))| && IdOf(w.batch(QueryOf(s.component))[i]) in s.failed;
      ReadSource(w, sources, j);
      LostIsUnread(w, lib, s, i);
      LostShows(w, lib, sources, j, i);
    }
  }

  lemma BuiltNaivelyExactly(w: World, lib: Library, sources: seq<Origin>)
    requires Reads(w, lib) && AllRead(NaiveFrom(w, sources))
    ensures multiset(BuiltFrom(w, sources)) == multiset(NaiveFrom(w, sources)) <==> AllClean(w, sources)
  {
    if AllClean(w, sources) {
      CleanIsNaive(w, sources);
    }
    if multiset(BuiltFrom(w, sources)) == multiset(NaiveFrom(w, sources)) {
      forall j | 0 <= j < |sources| ensures Clean(w, sources[j]) {
        NaiveMeansClean(w, lib, sources, j);
      }
    }
  }

  /**
   Over every history, where a severity can be read from every advisory of the sources, an answer has
   their naive findings if and only if none of them lost a fetch. Where those asked about before with a
   key of this query have the same answer, the same holds of the naive answer itself.
   */
  lemma NaiveExactlyWhenClean(w: World, lib: Library, history: seq<Action>, moments: seq<Moment>,
                              results: seq<Option<seq<Finding>>>, n: nat)
    returns (sources: seq<Origin>)
    requires Reads(w, lib) && Recounts(w, history, moments, results) && n < |history| && history[n].Ask? && results[n].Some?
    ensures Sourced(w, history, moments, results, n, sources)
    ensures AllRead(NaiveFrom(w, sources)) ==>
              (multiset(results[n].value) == multiset(NaiveFrom(w, sources)) <==> AllClean(w, sources))
    ensures Agree(w, history, n) && AllRead(NaiveAll(w, AskedBy(history[n]))) ==>
              (multiset(results[n].value) == multiset(NaiveAll(w, AskedBy(history[n]))) <==> AllClean(w, sources))
  {
    sources := HydrationDegradesUpward(w, lib, history, moments, results, n);
    if AllRead(NaiveFrom(w, sources)) {
      BuiltNaivelyExactly(w, lib, sources);
    }
    if Agree(w, history, n) && AllRead(NaiveAll(w, AskedBy(history[n]))) {
      ReadInAnyOrder(NaiveAll(w, AskedBy(history[n])), NaiveFrom(w, sources));
    }
  }
}

/** Vocabulary shared by the models: optional values, instants and small sequence facts. */
module Common {

  datatype Option<+T> = None | Some(value: T)

  datatype Result<+T, +E> = Ok(value: T) | Err(error: E)

  /** A reading of a monotone clock. */
  type Instant = nat

  /** Duration between two readings, zero when `earlier` is in fact later. */
  function Elapsed(now: Instant, earlier: Instant): nat {
    if now >= earlier then now - earlier else 0
  }

  function Min(a: nat, b: nat): nat {
    if a <= b then a else b
  }

  lemma UpdatedSize<K, V>(before: map<K, V>, k: K, v: V)
    ensures |before[k := v].Keys| == |before.Keys| + if k in before then 0 else 1
  {
    assert before[k := v].Keys == before.Keys + {k};
    if k in before {
      assert before.Keys + {k} == before.Keys;
    }
  }

  lemma RemovedSize<K, V>(before: map<K, V>, k: K)
    ensures |(before - {k}).Keys| == |before.Keys| - if k in before then 1 else 0
  {
    assert (before - {k}).Keys == before.Keys - {k};
    if k !in before {
      assert before.Keys - {k} == before.Keys;
    }
  }

  lemma AddedSize<T>(before: set<T>, x: T)
    ensures |before + {x}| == |before| + if x in before then 0 else 1
  {
    if x in before {
      assert before + {x} == before;
    }
  }

  lemma SubsetSize<T>(a: set<T>, b: set<T>)
    requires a <= b
    ensures |a| <= |b| && (|a| == |b| ==> a == b)
  {
    assert b == a + (b - a);
    if |a| == |b| {
      assert b - a == {};
    }
  }

  ghost predicate Distinct<T>(s: seq<T>) {
    forall i, j :: 0 <= i < j < |s| ==> s[i] != s[j]
  }

  ghost predicate Increasing(s: seq<nat>) {
    forall p, q :: 0 <= p < q < |s| ==> s[p] < s[q]
  }

  ghost function Elements<T(!new)>(s: seq<T>): (r: set<T>)
    ensures forall x :: x in r <==> x in s
  {
    set x | x in s
  }

  lemma {:induction false} DistinctSize<T(!new)>(s: seq<T>)
    requires Distinct(s)
    ensures |Elements(s)| == |s|
  {
    if s != [] {
      var front, last := s[..|s| - 1], s[|s| - 1];
      DistinctSize(front);
      assert s == front + [last];
      assert Elements(s) == Elements(front) + {last};
      AddedSize(Elements(front), last);
    }
  }

  /** The first separator splits a joined sequence one way only. */
  lemma SplitUnique<T>(separator: T, a: seq<T>, x: seq<T>, b: seq<T>, y: seq<T>)
    requires separator !in a && separator !in b
    requires a + [separator] + x == b + [separator] + y
    ensures a == b && x == y
  {
    var left, right := a + [separator] + x, b + [separator] + y;
    assert left[|a|] == separator && forall i :: 0 <= i < |a| ==> left[i] == a[i] != separator;
    assert right[|b|] == separator && forall i :: 0 <= i < |b| ==> right[i] == b[i] != separator;
    assert a == left[..|a|] && b == right[..|b|];
    assert x == left[|a| + 1..] && y == right[|b| + 1..];
  }

  lemma TailBag<T>(s: seq<T>)
    requires s != []
    ensures multiset(s[1..]) == multiset(s) - multiset{s[0]} && s == [s[0]] + s[1..]
  {
    assert s == [s[0]] + s[1..];
  }

  lemma BagWithout<T>(a: seq<T>, x: T, b: seq<T>)
    ensures multiset(a + b) == multiset(a + [x] + b) - multiset{x}
  {
  }

  lemma WithoutHead<T>(a: seq<T>, b: seq<T>) returns (k: nat)
    requires multiset(a) == multiset(b) && a != []
    ensures k < |b| && b[k] == a[0] && multiset(a[1..]) == multiset(b[..k] + b[k + 1..])
  {
    assert a[0] in multiset(b);
    k :| 0 <= k < |b| && b[k] == a[0];
    TailBag(a);
    assert b == b[..k] + [b[k]] + b[k + 1..];
    BagWithout(b[..k], b[k], b[k + 1..]);
  }
}

/** Grouping items that share a key, directly or through others. */
module AliasGraph {
  import opened Common
  import opened DisjointSets

  /** The keys each item mentions. */
  type Keyed<K> = seq<seq<K>>

  ghost predicate Linked<K(!new)>(keys: Keyed<K>, i: nat, j: nat) {
    i < |keys| && j < |keys| && exists k :: k in keys[i] && k in keys[j]
  }

  ghost predicate IsPath<K(!new)>(keys: Keyed<K>, p: seq<nat>, i: nat, j: nat) {
    && p != [] && p[0] == i && p[|p| - 1] == j
    && (forall n :: 0 <= n < |p| ==> p[n] < |keys|)
    && forall n :: 0 <= n < |p| - 1 ==> Linked(keys, p[n], p[n + 1])
  }

  /** A chain of items leads from one to the other, each sharing a key with the next. */
  ghost predicate Connected<K(!new)>(keys: Keyed<K>, i: nat, j: nat) {
    exists p :: IsPath(keys, p, i, j)
  }

  lemma ConnectedReflexive<K(!new)>(keys: Keyed<K>, i: nat)
    requires i < |keys|
    ensures Connected(keys, i, i)
  {
    assert IsPath(keys, [i], i, i);
  }

  lemma ConnectedTransitive<K(!new)>(keys: Keyed<K>, i: nat, j: nat, k: nat)
    requires Connected(keys, i, j) && Connected(keys, j, k)
    ensures Connected(keys, i, k)
  {
    var p :| IsPath(keys, p, i, j);
    var q :| IsPath(keys, q, j, k);
    var joined := p + q[1..];
    forall n | 0 <= n < |joined| - 1 ensures Linked(keys, joined[n], joined[n + 1]) {
      if n < |p| - 1 {
        assert Linked(keys, p[n], p[n + 1]);
      } else {
        assert joined[n] == q[n - |p| + 1] && joined[n + 1] == q[n - |p| + 2];
        assert Linked(keys, q[n - |p| + 1], q[n - |p| + 2]);
      }
    }
    assert IsPath(keys, joined, i, k);
  }

  lemma ConnectedSymmetric<K(!new)>(keys: Keyed<K>, i: nat, j: nat)
    requires Connected(keys, i, j)
    ensures Connected(keys, j, i)
  {
    var p :| IsPath(keys, p, i, j);
    var back := seq(|p|, n requires 0 <= n < |p| => p[|p| - 1 - n]);
    forall n | 0 <= n < |back| - 1 ensures Linked(keys, back[n], back[n + 1]) {
      assert Linked(keys, p[|p| - 2 - n], p[|p| - 1 - n]);
    }
    assert IsPath(keys, back, j, i);
  }

  lemma LinkedConnected<K(!new)>(keys: Keyed<K>, i: nat, j: nat)
    requires Linked(keys, i, j)
    ensures Connected(keys, i, j)
  {
    assert IsPath(keys, [i, j], i, j);
  }

  /** A path is a shorter path and one more link. */
  lemma PathFront<K(!new)>(keys: Keyed<K>, p: seq<nat>, i: nat, j: nat)
    requires IsPath(keys, p, i, j) && |p| > 1
    ensures IsPath(keys, p[..|p| - 1], i, p[|p| - 2]) && Linked(keys, p[|p| - 2], j)
  {
    var n, q := |p| - 2, p[..|p| - 1];
    assert Linked(keys, p[n], p[n + 1]);
    forall m | 0 <= m < |q| - 1 ensures Linked(keys, q[m], q[m + 1]) {
      assert Linked(keys, p[m], p[m + 1]);
    }
  }

  // ----- Building the groups ---------------------------------------------------------------------

  /** Items with one root are connected. */
  ghost predicate Sound<K(!new)>(keys: Keyed<K>, root: seq<nat>) {
    |root| == |keys| && forall x, y :: 0 <= x < |root| && 0 <= y < |root| && root[x] == root[y] ==> Connected(keys, x, y)
  }

  /** Items have one root exactly when they are connected. */
  ghost predicate RootsExact<K(!new)>(keys: Keyed<K>, root: seq<nat>) {
    && |root| == |keys|
    && forall i, j :: 0 <= i < |keys| && 0 <= j < |keys| ==> (root[i] == root[j] <==> Connected(keys, i, j))
  }

  /** Whoever mentions a claimed key has the claimant's root. */
  ghost predicate Claimed<K(!new)>(keys: Keyed<K>, root: seq<nat>, claims: map<K, nat>, i: nat, m: nat) {
    && i < |keys| == |root| && m <= |keys[i]|
    && forall n :: 0 <= n < m ==> keys[i][n] in claims && claims[keys[i][n]] < |root| && root[i] == root[claims[keys[i][n]]]
  }

  ghost predicate ClaimsHold<K(!new)>(keys: Keyed<K>, claims: map<K, nat>) {
    forall k :: k in claims ==> claims[k] < |keys| && k in keys[claims[k]]
  }

  lemma MergedSound<K(!new)>(keys: Keyed<K>, root: seq<nat>, a: nat, b: nat)
    requires Sound(keys, root) && a < |keys| && b < |keys| && Linked(keys, a, b)
    ensures Sound(keys, MergedRoots(root, root[a], root[b]))
  {
    var merged := MergedRoots(root, root[a], root[b]);
    LinkedConnected(keys, a, b);
    ConnectedSymmetric(keys, a, b);
    forall x, y | 0 <= x < |merged| && 0 <= y < |merged| && merged[x] == merged[y] ensures Connected(keys, x, y) {
      if root[x] != root[y] {
        if root[x] == root[b] {
          ConnectedTransitive(keys, x, b, a);
          ConnectedTransitive(keys, x, a, y);
        } else {
          ConnectedTransitive(keys, x, a, b);
          ConnectedTransitive(keys, x, b, y);
        }
      }
    }
  }

  /** Claim every key for the first item that mentions it, and merge later mentions with the claimant. */
  method BuildSets<K(==, !new)>(keys: Keyed<K>) returns (dsu: DisjointSet)
    ensures fresh(dsu) && fresh(dsu.parent) && dsu.Valid() && dsu.parent.Length == |keys|
    ensures RootsExact(keys, dsu.root)
  {
    dsu := new DisjointSet(|keys|);
    forall x | 0 <= x < |keys| ensures Connected(keys, x, x) {
      ConnectedReflexive(keys, x);
    }
    var claims: map<K, nat> := map[];
    for i := 0 to |keys|
      invariant fresh(dsu) && fresh(dsu.parent) && dsu.Valid() && dsu.parent.Length == |keys|
      invariant Progress(keys, dsu.root, claims, i, 0)
    {
      claims := ClaimAll(dsu, keys, claims, i);
    }
    ClaimedRootsExact(keys, dsu.root, claims);
  }

  /** The items before `i`, and the first `m` keys of item `i`, have been claimed or merged. */
  ghost predicate Progress<K(!new)>(keys: Keyed<K>, root: seq<nat>, claims: map<K, nat>, i: nat, m: nat) {
    && Sound(keys, root) && ClaimsHold(keys, claims) && i <= |keys|
    && (forall j :: 0 <= j < i ==> Claimed(keys, root, claims, j, |keys[j]|))
    && (i < |keys| ==> Claimed(keys, root, claims, i, m))
  }

  /** The keys of one item. */
  method ClaimAll<K(==, !new)>(dsu: DisjointSet, keys: Keyed<K>, claims0: map<K, nat>, i: nat) returns (claims: map<K, nat>)
    requires i < |keys| && dsu.Valid() && dsu.parent.Length == |keys| && Progress(keys, dsu.root, claims0, i, 0)
    modifies dsu, dsu.parent
    ensures dsu.Valid() && Progress(keys, dsu.root, claims, i + 1, 0)
  {
    claims := claims0;
    for m := 0 to |keys[i]|
      invariant dsu.Valid() && Progress(keys, dsu.root, claims, i, m)
    {
      var k := keys[i][m];
      if k in claims {
        MergedProgress(keys, dsu.root, claims, i, m);
        dsu.Union(claims[k], i);
      } else {
        ClaimedProgress(keys, dsu.root, claims, i, m);
        claims := claims[k := i];
      }
    }
  }

  lemma MergedProgress<K(!new)>(keys: Keyed<K>, root: seq<nat>, claims: map<K, nat>, i: nat, m: nat)
    requires Progress(keys, root, claims, i, m) && i < |keys| && m < |keys[i]| && keys[i][m] in claims
    ensures claims[keys[i][m]] < |root| && Progress(keys, MergedRoots(root, root[claims[keys[i][m]]], root[i]), claims, i, m + 1)
  {
    var c := claims[keys[i][m]];
    assert Linked(keys, c, i);
    MergedSound(keys, root, c, i);
    var merged := MergedRoots(root, root[c], root[i]);
    forall j | 0 <= j < i ensures Claimed(keys, merged, claims, j, |keys[j]|) {
      assert Claimed(keys, root, claims, j, |keys[j]|);
    }
  }

  lemma ClaimedProgress<K(!new)>(keys: Keyed<K>, root: seq<nat>, claims: map<K, nat>, i: nat, m: nat)
    requires Progress(keys, root, claims, i, m) && i < |keys| && m < |keys[i]| && keys[i][m] !in claims
    ensures Progress(keys, root, claims[keys[i][m] := i], i, m + 1)
  {
    var claims' := claims[keys[i][m] := i];
    forall j | 0 <= j < i ensures Claimed(keys, root, claims', j, |keys[j]|) {
      assert Claimed(keys, root, claims, j, |keys[j]|);
    }
  }

  lemma {:induction false} PathKeepsRoot<K(!new)>(keys: Keyed<K>, root: seq<nat>, claims: map<K, nat>, p: seq<nat>, i: nat, j: nat)
    requires |root| == |keys| && forall x :: 0 <= x < |keys| ==> Claimed(keys, root, claims, x, |keys[x]|)
    requires IsPath(keys, p, i, j)
    ensures root[i] == root[j]
    decreases p
  {
    if |p| > 1 {
      PathFront(keys, p, i, j);
      PathKeepsRoot(keys, root, claims, p[..|p| - 1], i, p[|p| - 2]);
      LinkedSameRoot(keys, root, claims, p[|p| - 2], j);
    }
  }

  lemma LinkedSameRoot<K(!new)>(keys: Keyed<K>, root: seq<nat>, claims: map<K, nat>, i: nat, j: nat)
    requires |root| == |keys| && forall x :: 0 <= x < |keys| ==> Claimed(keys, root, claims, x, |keys[x]|)
    requires Linked(keys, i, j)
    ensures root[i] == root[j]
  {
    var k :| k in keys[i] && k in keys[j];
    var n :| 0 <= n < |keys[i]| && keys[i][n] == k;
    var m :| 0 <= m < |keys[j]| && keys[j][m] == k;
    assert Claimed(keys, root, claims, i, |keys[i]|) && Claimed(keys, root, claims, j, |keys[j]|);
  }

  lemma ClaimedRootsExact<K(!new)>(keys: Keyed<K>, root: seq<nat>, claims: map<K, nat>)
    requires Sound(keys, root) && forall x :: 0 <= x < |keys| ==> Claimed(keys, root, claims, x, |keys[x]|)
    ensures RootsExact(keys, root)
  {
    forall i, j | 0 <= i < |keys| && 0 <= j < |keys| && Connected(keys, i, j) ensures root[i] == root[j] {
      var p :| IsPath(keys, p, i, j);
      PathKeepsRoot(keys, root, claims, p, i, j);
    }
  }

  // ----- Groups in first-seen order --------------------------------------------------------------

  ghost predicate InSomeGroup(groups: seq<seq<nat>>, i: nat) {
    exists a :: 0 <= a < |groups| && i in groups[a]
  }

  /** Every item in one group, groups and members in order of appearance, and a group is a component. */
  ghost predicate Grouping<K(!new)>(keys: Keyed<K>, groups: seq<seq<nat>>) {
    && (forall a :: 0 <= a < |groups| ==> groups[a] != [] && Increasing(groups[a]))
    && (forall a, p :: 0 <= a < |groups| && 0 <= p < |groups[a]| ==> groups[a][p] < |keys|)
    && (forall i: nat :: i < |keys| ==> InSomeGroup(groups, i))
    && (forall a, b, p, q :: 0 <= a < |groups| && 0 <= b < |groups| && 0 <= p < |groups[a]| && 0 <= q < |groups[b]| ==>
          (a == b <==> Connected(keys, groups[a][p], groups[b][q])))
    && forall a, b :: 0 <= a < b < |groups| ==> groups[a][0] < groups[b][0]
  }

  /** The bucket of one root among the first `n` items. */
  ghost predicate BucketOk(root: seq<nat>, n: nat, r: nat, bucket: seq<nat>) {
    && n <= |root| && bucket != [] && Increasing(bucket)
    && forall i: nat :: i in bucket <==> i < n && root[i] == r
  }

  ghost predicate Bucketed(root: seq<nat>, n: nat, order: seq<nat>, buckets: map<nat, seq<nat>>) {
    && n <= |root|
    && (forall r :: r in buckets <==> r in order)
    && (forall i: nat :: i < n ==> root[i] in buckets)
    && (forall r :: r in buckets ==> BucketOk(root, n, r, buckets[r]))
    && forall a, b :: 0 <= a < b < |order| ==> order[a] != order[b] && buckets[order[a]][0] < buckets[order[b]][0]
  }

  lemma BucketGrows(root: seq<nat>, n: nat, order: seq<nat>, buckets: map<nat, seq<nat>>)
    requires Bucketed(root, n, order, buckets) && n < |root| && root[n] in buckets
    ensures Bucketed(root, n + 1, order, buckets[root[n] := buckets[root[n]] + [n]])
  {
    var grown := buckets[root[n] := buckets[root[n]] + [n]];
    forall r | r in grown ensures BucketOk(root, n + 1, r, grown[r]) {
      assert BucketOk(root, n, r, buckets[r]);
      if r == root[n] {
        var bucket := buckets[r];
        assert forall p :: 0 <= p < |bucket| ==> bucket[p] in bucket;
      }
    }
  }

  lemma BucketOpens(root: seq<nat>, n: nat, order: seq<nat>, buckets: map<nat, seq<nat>>)
    requires Bucketed(root, n, order, buckets) && n < |root| && root[n] !in buckets
    ensures Bucketed(root, n + 1, order + [root[n]], buckets[root[n] := [n]])
  {
    var extended := buckets[root[n] := [n]];
    forall r | r in extended ensures BucketOk(root, n + 1, r, extended[r]) {
      if r != root[n] {
        assert BucketOk(root, n, r, buckets[r]);
      }
    }
    forall a | 0 <= a < |order| ensures order[a] != root[n] && buckets[order[a]][0] < n {
      assert order[a] in buckets && BucketOk(root, n, order[a], buckets[order[a]]);
      assert buckets[order[a]][0] in buckets[order[a]];
    }
  }

  ghost predicate InOrder(order: seq<nat>, buckets: map<nat, seq<nat>>, groups: seq<seq<nat>>) {
    |groups| == |order| && forall a :: 0 <= a < |order| ==> order[a] in buckets && groups[a] == buckets[order[a]]
  }

  lemma BucketsAreGroups<K(!new)>(keys: Keyed<K>, root: seq<nat>, order: seq<nat>, buckets: map<nat, seq<nat>>, groups: seq<seq<nat>>)
    requires RootsExact(keys, root) && Bucketed(root, |root|, order, buckets) && InOrder(order, buckets, groups)
    ensures Grouping(keys, groups)
  {
    forall a, p | 0 <= a < |groups| && 0 <= p < |groups[a]| ensures groups[a][p] < |keys| && root[groups[a][p]] == order[a] {
      assert BucketOk(root, |root|, order[a], buckets[order[a]]);
      assert groups[a][p] in groups[a];
    }
    forall i: nat | i < |keys| ensures InSomeGroup(groups, i) {
      assert root[i] in order && BucketOk(root, |root|, root[i], buckets[root[i]]);
      var a :| 0 <= a < |order| && order[a] == root[i];
      assert i in groups[a];
    }
    forall a | 0 <= a < |groups| ensures groups[a] != [] && Increasing(groups[a]) {
      assert BucketOk(root, |root|, order[a], buckets[order[a]]);
    }
  }

  /** Put every item in its root's bucket, noting the roots in the order they are first met. */
  method FillBuckets(dsu: DisjointSet) returns (order: seq<nat>, buckets: map<nat, seq<nat>>)
    requires dsu.Valid()
    modifies dsu.parent
    ensures dsu.Valid() && Bucketed(dsu.root, |dsu.root|, order, buckets)
  {
    order, buckets := [], map[];
    for i := 0 to dsu.parent.Length
      invariant dsu.Valid() && Bucketed(dsu.root, i, order, buckets)
    {
      var r := dsu.Find(i);
      if r in buckets {
        BucketGrows(dsu.root, i, order, buckets);
        buckets := buckets[r := buckets[r] + [i]];
      } else {
        BucketOpens(dsu.root, i, order, buckets);
        order, buckets := order + [r], buckets[r := [i]];
      }
    }
  }

  /** The groups of items that share keys, directly or through others. */
  method GroupItems<K(==, !new)>(keys: Keyed<K>) returns (groups: seq<seq<nat>>)
    ensures Grouping(keys, groups)
  {
    var dsu := BuildSets(keys);
    var order, buckets := FillBuckets(dsu);
    groups := TakeBuckets(order, buckets);
    BucketsAreGroups(keys, dsu.root, order, buckets, groups);
  }

  method TakeBuckets(order: seq<nat>, buckets: map<nat, seq<nat>>) returns (groups: seq<seq<nat>>)
    requires forall a :: 0 <= a < |order| ==> order[a] in buckets
    ensures InOrder(order, buckets, groups)
  {
    groups := [];
    for a := 0 to |order|
      invariant |groups| == a && forall b :: 0 <= b < a ==> groups[b] == buckets[order[b]]
    {
      groups := groups + [buckets[order[a]]];
    }
  }

  /** Items of which no two share a key are groups of their own. */
  lemma UnlinkedAreSingletons<K(!new)>(keys: Keyed<K>, groups: seq<seq<nat>>)
    requires Grouping(keys, groups)
    requires forall i, j :: 0 <= i < |keys| && 0 <= j < |keys| && i != j ==> !Linked(keys, i, j)
    ensures |groups| == |keys| && forall i :: 0 <= i < |groups| ==> groups[i] == [i]
  {
    forall a | 0 <= a < |groups| ensures |groups[a]| == 1 {
      if |groups[a]| > 1 {
        assert Connected(keys, groups[a][0], groups[a][1]);
        UnlinkedConnected(keys, groups[a][0], groups[a][1]);
      }
    }
    SingletonGroups(keys, groups, |groups|);
    AsManyAsItems(keys, groups);
  }

  lemma UnlinkedConnected<K(!new)>(keys: Keyed<K>, i: nat, j: nat)
    requires forall i, j :: 0 <= i < |keys| && 0 <= j < |keys| && i != j ==> !Linked(keys, i, j)
    requires Connected(keys, i, j)
    ensures i == j
  {
    var p :| IsPath(keys, p, i, j);
    UnlinkedPath(keys, p, i, j);
  }

  lemma {:induction false} UnlinkedPath<K(!new)>(keys: Keyed<K>, p: seq<nat>, i: nat, j: nat)
    requires forall i, j :: 0 <= i < |keys| && 0 <= j < |keys| && i != j ==> !Linked(keys, i, j)
    requires IsPath(keys, p, i, j)
    ensures i == j
    decreases p
  {
    if |p| > 1 {
      PathFront(keys, p, i, j);
      UnlinkedPath(keys, p[..|p| - 1], i, p[|p| - 2]);
    }
  }

  lemma {:induction false} FirstsGrow<K(!new)>(keys: Keyed<K>, groups: seq<seq<nat>>, a: nat)
    requires Grouping(keys, groups) && a < |groups|
    ensures groups[a][0] >= a
  {
    if a > 0 {
      FirstsGrow(keys, groups, a - 1);
    }
  }

  /** Singleton groups that cover the items in order of appearance are the items in order. */
  lemma {:induction false} SingletonGroups<K(!new)>(keys: Keyed<K>, groups: seq<seq<nat>>, n: nat)
    requires Grouping(keys, groups) && n <= |groups| && forall a :: 0 <= a < |groups| ==> |groups[a]| == 1
    ensures forall a :: 0 <= a < n ==> groups[a] == [a]
  {
    if n > 0 {
      SingletonGroups(keys, groups, n - 1);
      var i: nat := n - 1;
      FirstsGrow(keys, groups, i);
      assert groups[i][0] < |keys| && InSomeGroup(groups, i);
      var a :| 0 <= a < |groups| && i in groups[a];
      assert groups[a] == [i];
      FirstsGrow(keys, groups, a);
      assert a == i;
    }
  }

  lemma AsManyAsItems<K(!new)>(keys: Keyed<K>, groups: seq<seq<nat>>)
    requires Grouping(keys, groups) && forall a :: 0 <= a < |groups| ==> groups[a] == [a]
    ensures |groups| == |keys|
  {
    if |groups| > 0 {
      assert groups[|groups| - 1][0] < |keys|;
    }
    if |keys| > 0 {
      var i: nat := |keys| - 1;
      assert InSomeGroup(groups, i);
      var a :| 0 <= a < |groups| && i in groups[a];
    }
  }
}

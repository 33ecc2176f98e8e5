/** Union-find on a flat parent array, halving paths as they are walked. */
module DisjointSets {

  /** One node of a forest: its parent shares its root, and is higher unless the node is a root. */
  ghost predicate NodeOk(parent: seq<nat>, root: seq<nat>, height: seq<nat>, bound: nat, x: nat) {
    && |root| == |height| == |parent| && x < |parent|
    && parent[x] < |parent| && root[x] < |parent| && height[x] <= bound
    && root[parent[x]] == root[x] && parent[root[x]] == root[x]
    && (if parent[x] == x then root[x] == x else height[x] < height[parent[x]])
  }

  ghost predicate Forest(parent: seq<nat>, root: seq<nat>, height: seq<nat>, bound: nat) {
    && |root| == |height| == |parent|
    && forall x: nat :: x < |parent| ==> NodeOk(parent, root, height, bound, x)
  }

  lemma RootOfRoot(parent: seq<nat>, root: seq<nat>, height: seq<nat>, bound: nat, x: nat)
    requires Forest(parent, root, height, bound) && x < |parent|
    ensures root[x] < |parent| && root[root[x]] == root[x] && parent[root[x]] == root[x]
  {
    assert NodeOk(parent, root, height, bound, x);
    assert NodeOk(parent, root, height, bound, root[x]);
  }

  lemma HalvingKeepsForest(parent: seq<nat>, root: seq<nat>, height: seq<nat>, bound: nat, x: nat)
    requires Forest(parent, root, height, bound) && x < |parent| && parent[x] != x
    ensures parent[x] < |parent| && parent[parent[x]] < |parent|
    ensures var g := parent[parent[x]];
            Forest(parent[x := g], root, height, bound) && root[g] == root[x] && bound >= height[g] > height[x]
  {
    assert NodeOk(parent, root, height, bound, x);
    var p := parent[x];
    assert NodeOk(parent, root, height, bound, p);
    var g := parent[p];
    assert NodeOk(parent, root, height, bound, g);
    var halved := parent[x := g];
    forall y: nat | y < |halved| ensures NodeOk(halved, root, height, bound, y) {
      assert NodeOk(parent, root, height, bound, y);
      RootOfRoot(parent, root, height, bound, y);
    }
  }

  ghost function MergedRoots(root: seq<nat>, ra: nat, rb: nat): (r: seq<nat>)
    ensures |r| == |root| && forall i :: 0 <= i < |r| ==> r[i] == if root[i] == rb then ra else root[i]
  {
    seq(|root|, i requires 0 <= i < |root| => if root[i] == rb then ra else root[i])
  }

  ghost function Raised(root: seq<nat>, height: seq<nat>, ra: nat, lift: nat): (r: seq<nat>)
    requires |root| == |height|
    ensures |r| == |root| && forall i :: 0 <= i < |r| ==> r[i] == if root[i] == ra then height[i] + lift else height[i]
  {
    seq(|root|, i requires 0 <= i < |root| => if root[i] == ra then height[i] + lift else height[i])
  }

  lemma LinkingKeepsForest(parent: seq<nat>, root: seq<nat>, height: seq<nat>, bound: nat, ra: nat, rb: nat)
    requires Forest(parent, root, height, bound) && ra < |parent| && rb < |parent| && ra != rb
    requires root[ra] == ra && root[rb] == rb
    ensures Forest(parent[rb := ra], MergedRoots(root, ra, rb), Raised(root, height, ra, bound + 1), 2 * bound + 1)
  {
    var linked, roots, heights := parent[rb := ra], MergedRoots(root, ra, rb), Raised(root, height, ra, bound + 1);
    var higher := 2 * bound + 1;
    assert NodeOk(parent, root, height, bound, ra) && NodeOk(parent, root, height, bound, rb);
    forall y: nat | y < |linked| ensures NodeOk(linked, roots, heights, higher, y) {
      assert NodeOk(parent, root, height, bound, y);
      RootOfRoot(parent, root, height, bound, y);
    }
  }

  class DisjointSet {
    const parent: array<nat>
    /** The root of each node, and a height that grows towards it. */
    ghost var root: seq<nat>
    ghost var height: seq<nat>
    ghost var bound: nat

    ghost predicate Valid()
      reads this, parent
    {
      Forest(parent[..], root, height, bound)
    }

    constructor (n: nat)
      ensures Valid() && fresh(parent) && parent.Length == n
      ensures |root| == n && forall x :: 0 <= x < n ==> root[x] == x
    {
      parent := new nat[n](i => i);
      root := seq(n, i => i);
      height := seq(n, _ => 0);
      bound := 0;
    }

    /** The root of a node's set. Which nodes belong together does not change. */
    method Find(start: nat) returns (r: nat)
      requires Valid() && start < parent.Length
      modifies parent
      ensures Valid() && r < parent.Length && r == root[start] && root[r] == r
    {
      var x: nat := start;
      assert NodeOk(parent[..], root, height, bound, x);
      while parent[x] != x
        invariant x < parent.Length && Valid() && root[x] == root[start] && height[x] <= bound
        decreases bound - height[x]
      {
        ghost var before := parent[..];
        HalvingKeepsForest(before, root, height, bound, x);
        parent[x] := parent[parent[x]];
        assert parent[..] == before[x := before[before[x]]];
        x := parent[x];
      }
      assert NodeOk(parent[..], root, height, bound, x);
      r := x;
    }

    /** Merge two sets: the nodes rooted like `b` are now rooted like `a`, and no others move. */
    method Union(a: nat, b: nat)
      requires Valid() && a < parent.Length && b < parent.Length
      modifies parent, this`root, this`height, this`bound
      ensures Valid() && root == MergedRoots(old(root), old(root[a]), old(root[b]))
    {
      var ra := Find(a);
      var rb := Find(b);
      if ra != rb {
        ghost var before := parent[..];
        LinkingKeepsForest(before, root, height, bound, ra, rb);
        parent[rb] := ra;
        assert parent[..] == before[rb := ra];
        root, height, bound := MergedRoots(root, ra, rb), Raised(root, height, ra, bound + 1), 2 * bound + 1;
      } else {
        assert root == MergedRoots(root, ra, rb);
      }
    }
  }
}

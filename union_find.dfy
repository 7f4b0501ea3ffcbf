/** The disjoint-set forest of deduplicate.py: a list of parent indices,
    `find` with path halving and `union` linking one root under the other. */
module UnionFind {

  /** `r1` is `r0` after the class of `b` was merged into the class of `a`:
      every element whose representative was `b`'s now has `a`'s. */
  ghost predicate Merged(r0: seq<nat>, r1: seq<nat>, a: nat, b: nat)
  {
    a < |r0| && b < |r0| && |r1| == |r0|
    && forall i | 0 <= i < |r0| :: r1[i] == if r0[i] == r0[b] then r0[a] else r0[i]
  }

  /** The forest invariant on parent links `p`: links stay in range, every
      element's representative is a root, links stay inside a class, roots
      represent themselves, and `depth` strictly decreases along every link. */
  ghost predicate Forest(p: seq<nat>, root: seq<nat>, depth: seq<nat>)
  {
    && |root| == |p| && |depth| == |p|
    && (forall i | 0 <= i < |p| :: p[i] < |p| && root[i] < |p|)
    && (forall i | 0 <= i < |p| :: p[root[i]] == root[i])
    && (forall i | 0 <= i < |p| :: root[p[i]] == root[i])
    && (forall i | 0 <= i < |p| && p[i] == i :: root[i] == i)
    && (forall i | 0 <= i < |p| && p[i] != i :: depth[p[i]] < depth[i])
  }

  /** Path halving: re-linking a non-root `x` to its grandparent keeps the
      forest and every element's representative. */
  lemma Halve(p: seq<nat>, root: seq<nat>, depth: seq<nat>, x: nat)
    requires Forest(p, root, depth) && x < |p| && p[x] != x
    ensures Forest(p[x := p[p[x]]], root, depth)
  {
  }

  /** Representatives after the class of root `rb` joined the class of root `ra`. */
  ghost function MergeRoots(root: seq<nat>, ra: nat, rb: nat): (r: seq<nat>)
    ensures |r| == |root|
    ensures forall i | 0 <= i < |root| :: r[i] == if root[i] == rb then ra else root[i]
  {
    seq(|root|, i requires 0 <= i < |root| => if root[i] == rb then ra else root[i])
  }

  /** Depths after the tree of `rb` was hung below `ra`. */
  ghost function RaiseDepth(root: seq<nat>, depth: seq<nat>, ra: nat, rb: nat): (d: seq<nat>)
    requires |depth| == |root| && ra < |depth|
    ensures |d| == |depth|
    ensures forall i | 0 <= i < |root| :: d[i] == if root[i] == rb then depth[i] + depth[ra] + 1 else depth[i]
  {
    seq(|root|, i requires 0 <= i < |root| => if root[i] == rb then depth[i] + depth[ra] + 1 else depth[i])
  }

  /** Linking root `rb` under root `ra` of another class keeps a forest. */
  lemma LinkRoots(p: seq<nat>, root: seq<nat>, depth: seq<nat>, ra: nat, rb: nat)
    requires Forest(p, root, depth)
    requires ra < |p| && rb < |p| && p[ra] == ra && p[rb] == rb && ra != rb
    ensures Forest(p[rb := ra], MergeRoots(root, ra, rb), RaiseDepth(root, depth, ra, rb))
  {
    assert root[ra] == ra && root[rb] == rb;
  }

  /** Relinking the roots of `a` and `b` merges exactly their two classes;
      when they already share a root nothing needs to change. */
  lemma MergeRootsMerged(root: seq<nat>, a: nat, b: nat)
    requires a < |root| && b < |root|
    ensures root[a] != root[b] ==> Merged(root, MergeRoots(root, root[a], root[b]), a, b)
    ensures root[a] == root[b] ==> Merged(root, root, a, b)
  {
  }

  class DisjointSet {
    /** Number of elements. */
    const n: nat
    /** `parent[i]` is the parent of `i`; a root is its own parent. */
    const parent: array<nat>
    /** The representative (root) of every element. */
    ghost var root: seq<nat>
    /** A rank that decreases from every non-root to its parent, so that
        following parents always reaches a root. */
    ghost var depth: seq<nat>

    ghost predicate Valid()
      reads this, parent
    {
      parent.Length == n && Forest(parent[..], root, depth)
    }

    /** `parent = list(range(n))`: every element alone in its class. */
    constructor (size: nat)
      ensures Valid() && fresh(parent)
      ensures n == size && forall i | 0 <= i < n :: root[i] == i
    {
      n := size;
      parent := new nat[size](i => i);
      root := seq(size, i => i);
      depth := seq(size, i => 0);
    }

    /** `find(x)`: the root of `x`. On the way up every visited node is
        re-linked to its grandparent; no element changes class. */
    method Find(x: nat) returns (r: nat)
      requires Valid() && x < n
      modifies parent
      ensures Valid()
      ensures r == root[x] && parent[r] == r
    {
      r := x;
      while parent[r] != r
        invariant Valid() && r < n && root[r] == root[x]
        decreases depth[r]
      {
        ghost var p0 := parent[..];
        Halve(p0, root, depth, r);
        parent[r] := parent[parent[r]];
        assert parent[..] == p0[r := p0[p0[r]]];
        r := parent[r];
      }
    }

    /** `parent[rb] = ra` for two distinct roots: the class of `rb` joins
        the class of `ra`. */
    method Link(ra: nat, rb: nat)
      requires Valid() && ra < n && rb < n && ra != rb
      requires parent[ra] == ra && parent[rb] == rb
      modifies this, parent
      ensures Valid()
      ensures root == MergeRoots(old(root), ra, rb)
    {
      ghost var p0, r0, d0 := parent[..], root, depth;
      LinkRoots(p0, r0, d0, ra, rb);
      parent[rb] := ra;
      assert parent[..] == p0[rb := ra];
      depth := RaiseDepth(r0, d0, ra, rb);
      root := MergeRoots(r0, ra, rb);
    }

    /** `union(a, b)`: the root of `b`'s class is linked under the root of `a`'s. */
    method Union(a: nat, b: nat)
      requires Valid() && a < n && b < n
      modifies this, parent
      ensures Valid()
      ensures Merged(old(root), root, a, b)
    {
      var ra := Find(a);
      var rb := Find(b);
      MergeRootsMerged(root, a, b);
      if ra != rb {
        Link(ra, rb);
      }
    }
  }
}

/** The similarity relation behind deduplication: two slides are near
    duplicates when their hash distance is at most the threshold, and two
    slides belong together when a chain of near duplicates joins them. */
module Similarity {
  import opened PerceptualHash
  import opened UnionFind

  ghost predicate Near(hashes: seq<Hash>, threshold: int, i: nat, j: nat)
  {
    i < |hashes| && j < |hashes| && Distance(hashes[i], hashes[j]) <= threshold
  }

  /** Consecutive entries of `path` are near duplicates. */
  ghost predicate IsChain(hashes: seq<Hash>, threshold: int, path: seq<nat>)
  {
    && |path| >= 1
    && (forall k | 0 <= k < |path| :: path[k] < |hashes|)
    && (forall k | 0 <= k < |path| - 1 :: Near(hashes, threshold, path[k], path[k + 1]))
  }

  /** Slides `i` and `j` are joined by a chain of near duplicates. */
  ghost predicate Linked(hashes: seq<Hash>, threshold: int, i: nat, j: nat)
  {
    exists path :: IsChain(hashes, threshold, path) && path[0] == i && path[|path| - 1] == j
  }

  lemma LinkedSelf(hashes: seq<Hash>, threshold: int, i: nat)
    requires i < |hashes|
    ensures Linked(hashes, threshold, i, i)
  {
    assert IsChain(hashes, threshold, [i]);
  }

  lemma LinkedNear(hashes: seq<Hash>, threshold: int, i: nat, j: nat)
    requires Near(hashes, threshold, i, j)
    ensures Linked(hashes, threshold, i, j)
  {
    assert IsChain(hashes, threshold, [i, j]);
  }

  function Reverse(path: seq<nat>): (r: seq<nat>)
    ensures |r| == |path|
    ensures forall k | 0 <= k < |path| :: r[k] == path[|path| - 1 - k]
  {
    seq(|path|, k requires 0 <= k < |path| => path[|path| - 1 - k])
  }

  lemma LinkedSymmetric(hashes: seq<Hash>, threshold: int, i: nat, j: nat)
    requires Linked(hashes, threshold, i, j)
    ensures Linked(hashes, threshold, j, i)
  {
    var path :| IsChain(hashes, threshold, path) && path[0] == i && path[|path| - 1] == j;
    var back := Reverse(path);
    forall k | 0 <= k < |back| - 1 ensures Near(hashes, threshold, back[k], back[k + 1]) {
      var m := |path| - 2 - k;
      assert Near(hashes, threshold, path[m], path[m + 1]);
      DistanceSymmetric(hashes[path[m]], hashes[path[m + 1]]);
    }
    assert IsChain(hashes, threshold, back);
  }

  lemma LinkedTransitive(hashes: seq<Hash>, threshold: int, i: nat, j: nat, k: nat)
    requires Linked(hashes, threshold, i, j) && Linked(hashes, threshold, j, k)
    ensures Linked(hashes, threshold, i, k)
  {
    var p :| IsChain(hashes, threshold, p) && p[0] == i && p[|p| - 1] == j;
    var q :| IsChain(hashes, threshold, q) && q[0] == j && q[|q| - 1] == k;
    var pq := p + q[1..];
    forall m | 0 <= m < |pq| - 1 ensures Near(hashes, threshold, pq[m], pq[m + 1]) {
      if m < |p| - 1 {
        assert pq[m] == p[m] && pq[m + 1] == p[m + 1];
      } else {
        var m' := m - |p| + 1;
        assert pq[m] == q[m'] && pq[m + 1] == q[m' + 1];
      }
    }
    assert IsChain(hashes, threshold, pq);
  }

  /** Elements with the same representative are joined by a chain. */
  ghost predicate Sound(hashes: seq<Hash>, threshold: int, root: seq<nat>)
  {
    && |root| == |hashes|
    && forall x, y | 0 <= x < |root| && 0 <= y < |root| && root[x] == root[y] :: Linked(hashes, threshold, x, y)
  }

  /** Before any union every element is alone, which is sound. */
  lemma SingletonsSound(hashes: seq<Hash>, threshold: int, root: seq<nat>)
    requires |root| == |hashes| && forall i | 0 <= i < |root| :: root[i] == i
    ensures Sound(hashes, threshold, root)
  {
    forall x | 0 <= x < |root| ensures Linked(hashes, threshold, x, x) {
      LinkedSelf(hashes, threshold, x);
    }
  }

  /** Merging the classes of two near duplicates keeps the representatives sound. */
  lemma MergeNearSound(hashes: seq<Hash>, threshold: int, r0: seq<nat>, r1: seq<nat>, a: nat, b: nat)
    requires Sound(hashes, threshold, r0) && Merged(r0, r1, a, b)
    requires Near(hashes, threshold, a, b)
    ensures Sound(hashes, threshold, r1)
  {
    forall x, y | 0 <= x < |r1| && 0 <= y < |r1| && r1[x] == r1[y]
      ensures Linked(hashes, threshold, x, y)
    {
      if r0[x] == r0[y] {
      } else if r0[x] == r0[b] {
        // x is in b's old class, y in a's
        assert r0[y] == r0[a];
        LinkedNear(hashes, threshold, a, b);
        LinkedSymmetric(hashes, threshold, a, b);
        LinkedTransitive(hashes, threshold, x, b, a);
        LinkedTransitive(hashes, threshold, x, a, y);
      } else {
        // y is in b's old class, x in a's
        assert r0[y] == r0[b] && r0[x] == r0[a];
        LinkedNear(hashes, threshold, a, b);
        LinkedTransitive(hashes, threshold, x, a, b);
        LinkedTransitive(hashes, threshold, x, b, y);
      }
    }
  }

  /** Every near pair x < y has one representative. */
  ghost predicate NearPairsJoined(hashes: seq<Hash>, threshold: int, root: seq<nat>)
  {
    && |root| == |hashes|
    && forall x, y | 0 <= x < y < |root| && Near(hashes, threshold, x, y) :: root[x] == root[y]
  }

  /** Every near pair (x, y), x < y, that comes before (i, j) in the order in
      which the pair loop visits them has one representative. */
  ghost predicate JoinedUpTo(hashes: seq<Hash>, threshold: int, root: seq<nat>, i: nat, j: nat)
  {
    && |root| == |hashes|
    && forall x, y | 0 <= x < y < |root| && (x < i || (x == i && y < j)) && Near(hashes, threshold, x, y) ::
         root[x] == root[y]
  }

  /** Visiting a near pair (i, j) and merging its classes. */
  lemma MergeStep(hashes: seq<Hash>, threshold: int, r0: seq<nat>, r1: seq<nat>, i: nat, j: nat)
    requires Sound(hashes, threshold, r0) && JoinedUpTo(hashes, threshold, r0, i, j)
    requires Merged(r0, r1, i, j) && Near(hashes, threshold, i, j)
    ensures Sound(hashes, threshold, r1) && JoinedUpTo(hashes, threshold, r1, i, j + 1)
  {
    MergeNearSound(hashes, threshold, r0, r1, i, j);
  }

  /** Visiting a pair (i, j) that is not near changes nothing. */
  lemma SkipStep(hashes: seq<Hash>, threshold: int, r: seq<nat>, i: nat, j: nat)
    requires JoinedUpTo(hashes, threshold, r, i, j) && !Near(hashes, threshold, i, j)
    ensures JoinedUpTo(hashes, threshold, r, i, j + 1)
  {
  }

  /** Finishing row i of the pair loop. */
  lemma RowDone(hashes: seq<Hash>, threshold: int, r: seq<nat>, i: nat)
    requires JoinedUpTo(hashes, threshold, r, i, |r|)
    ensures JoinedUpTo(hashes, threshold, r, i + 1, i + 2)
  {
  }

  lemma AllRowsDone(hashes: seq<Hash>, threshold: int, r: seq<nat>)
    requires JoinedUpTo(hashes, threshold, r, |r|, |r| + 1)
    ensures NearPairsJoined(hashes, threshold, r)
  {
  }

  lemma {:induction false} ChainOneClass(hashes: seq<Hash>, threshold: int, root: seq<nat>, path: seq<nat>)
    requires NearPairsJoined(hashes, threshold, root) && IsChain(hashes, threshold, path)
    ensures root[path[0]] == root[path[|path| - 1]]
    decreases |path|
  {
    if |path| > 1 {
      var x, y := path[0], path[1];
      assert Near(hashes, threshold, x, y);
      if y < x {
        DistanceSymmetric(hashes[x], hashes[y]);
        assert Near(hashes, threshold, y, x);
      }
      ChainOneClass(hashes, threshold, root, path[1..]);
    }
  }

  /** Once all near pairs are joined, a chain never crosses two classes. */
  lemma LinkedOneClass(hashes: seq<Hash>, threshold: int, root: seq<nat>)
    requires NearPairsJoined(hashes, threshold, root)
    ensures forall x, y | 0 <= x < |root| && 0 <= y < |root| && Linked(hashes, threshold, x, y) :: root[x] == root[y]
  {
    forall x, y | 0 <= x < |root| && 0 <= y < |root| && Linked(hashes, threshold, x, y)
      ensures root[x] == root[y]
    {
      var path :| IsChain(hashes, threshold, path) && path[0] == x && path[|path| - 1] == y;
      ChainOneClass(hashes, threshold, root, path);
    }
  }
}

/** The deduplicator of deduplicate.py: near-duplicate slides are grouped
    with a disjoint-set forest over their indices, the sharpest slide of each
    group is kept, and the kept slides are returned in name order. */
module Deduplicate {
  import opened PerceptualHash
  import opened UnionFind
  import opened Similarity
  import opened Indices
  import Names

  /** The pair loop: `union(i, j)` for every i < j whose hashes are within
      `threshold`. Afterwards two slides share a root exactly when a chain of
      near duplicates joins them. */
  method LinkSimilar(ds: DisjointSet, hashes: seq<Hash>, threshold: int)
    requires ds.Valid() && ds.n == |hashes|
    requires forall i | 0 <= i < ds.n :: ds.root[i] == i
    modifies ds, ds.parent
    ensures ds.Valid()
    ensures forall x, y | 0 <= x < ds.n && 0 <= y < ds.n ::
      ds.root[x] == ds.root[y] <==> Linked(hashes, threshold, x, y)
  {
    var n := |hashes|;
    SingletonsSound(hashes, threshold, ds.root);
    for i := 0 to n
      invariant ds.Valid() && Sound(hashes, threshold, ds.root)
      invariant JoinedUpTo(hashes, threshold, ds.root, i, i + 1)
    {
      for j := i + 1 to n
        invariant ds.Valid() && Sound(hashes, threshold, ds.root)
        invariant JoinedUpTo(hashes, threshold, ds.root, i, j)
      {
        if Distance(hashes[i], hashes[j]) <= threshold {
          ghost var r0 := ds.root;
          ds.Union(i, j);
          MergeStep(hashes, threshold, r0, ds.root, i, j);
        } else {
          SkipStep(hashes, threshold, ds.root, i, j);
        }
      }
      RowDone(hashes, threshold, ds.root, i);
    }
    AllRowsDone(hashes, threshold, ds.root);
    LinkedOneClass(hashes, threshold, ds.root);
  }

  /** The elements below `k` whose representative is `r`, ascending. */
  ghost function Members(root: seq<nat>, r: nat, k: nat): (m: seq<nat>)
    requires k <= |root|
    ensures forall a | 0 <= a < |m| :: m[a] < k
    ensures forall x: nat :: x in m <==> x < k && root[x] == r
    ensures Increasing(m)
  {
    if k == 0 then []
    else
      var m := Members(root, r, k - 1);
      assert forall a | 0 <= a < |m| :: m[a] in m;
      m + (if root[k - 1] == r then [k - 1] else [])
  }

  /** `order` and `groups` hold the dictionary built from the first `i`
      elements: its keys in first-appearance order, without repeats, and for
      every key the ascending list of the elements it represents. */
  ghost predicate GroupedUpTo(root: seq<nat>, order: seq<nat>, groups: map<nat, seq<nat>>, i: nat)
  {
    && i <= |root|
    && (forall r :: r in groups <==> r in order)
    && (forall a, b | 0 <= a < b < |order| :: order[a] != order[b])
    && (forall x | 0 <= x < i :: root[x] in groups)
    && (forall r | r in groups :: groups[r] == Members(root, r, i) && groups[r] != [])
  }

  /** Appending element `i` to the list of its representative, which is
      already a key. */
  lemma ExtendGroup(root: seq<nat>, order: seq<nat>, groups: map<nat, seq<nat>>, i: nat)
    requires GroupedUpTo(root, order, groups, i) && i < |root| && root[i] in groups
    ensures GroupedUpTo(root, order, groups[root[i] := groups[root[i]] + [i]], i + 1)
  {
    var g := groups[root[i] := groups[root[i]] + [i]];
    forall r | r in g
      ensures g[r] == Members(root, r, i + 1) && g[r] != []
    {
      assert Members(root, r, i + 1) == Members(root, r, i) + (if root[i] == r then [i] else []);
    }
  }

  /** A representative that is not yet a key has no members below `i`. */
  lemma NoMembers(root: seq<nat>, groups: map<nat, seq<nat>>, r: nat, i: nat)
    requires i <= |root| && r !in groups
    requires forall x | 0 <= x < i :: root[x] in groups
    ensures Members(root, r, i) == []
  {
    var m := Members(root, r, i);
    assert forall x :: x !in m;
  }

  /** Element `i` opens a new key: its representative is appended to the key
      order with the one-element list `[i]`. */
  lemma NewGroup(root: seq<nat>, order: seq<nat>, groups: map<nat, seq<nat>>, i: nat)
    requires GroupedUpTo(root, order, groups, i) && i < |root| && root[i] !in groups
    ensures GroupedUpTo(root, order + [root[i]], groups[root[i] := [i]], i + 1)
  {
    var g, o := groups[root[i] := [i]], order + [root[i]];
    NewGroupContents(root, order, groups, i, g);
    NewGroupOrder(order, groups, root[i]);
    NewGroupKeys(root, order, groups, i, g, o);
  }

  lemma NewGroupKeys(root: seq<nat>, order: seq<nat>, groups: map<nat, seq<nat>>, i: nat,
    g: map<nat, seq<nat>>, o: seq<nat>)
    requires i < |root| && (forall q :: q in groups <==> q in order)
    requires forall x | 0 <= x < i :: root[x] in groups
    requires g == groups[root[i] := [i]] && o == order + [root[i]]
    ensures forall q :: q in g <==> q in o
    ensures forall x | 0 <= x < i + 1 :: root[x] in g
  {
    forall q ensures q in g <==> q in o {
      assert q in o <==> q in order || q == root[i];
    }
  }

  lemma NewGroupContents(root: seq<nat>, order: seq<nat>, groups: map<nat, seq<nat>>, i: nat, g: map<nat, seq<nat>>)
    requires GroupedUpTo(root, order, groups, i) && i < |root| && root[i] !in groups
    requires g == groups[root[i] := [i]]
    ensures forall r | r in g :: g[r] == Members(root, r, i + 1) && g[r] != []
  {
    forall r | r in g
      ensures g[r] == Members(root, r, i + 1) && g[r] != []
    {
      assert Members(root, r, i + 1) == Members(root, r, i) + (if root[i] == r then [i] else []);
      if r == root[i] {
        NoMembers(root, groups, r, i);
      }
    }
  }

  lemma NewGroupOrder(order: seq<nat>, groups: map<nat, seq<nat>>, r: nat)
    requires (forall q :: q in groups <==> q in order) && r !in groups
    requires forall a, b | 0 <= a < b < |order| :: order[a] != order[b]
    ensures forall a, b | 0 <= a < b < |order + [r]| :: (order + [r])[a] != (order + [r])[b]
  {
    var o := order + [r];
    forall a, b | 0 <= a < b < |o|
      ensures o[a] != o[b]
    {
      if b == |order| {
        assert o[a] == order[a] && order[a] in groups;
      }
    }
  }

  /** The grouping loop: `groups.setdefault(find(i), []).append(i)` for every
      `i`. `order` is the dictionary's key order (first appearance), `groups`
      its contents. */
  method CollectGroups(ds: DisjointSet) returns (order: seq<nat>, groups: map<nat, seq<nat>>)
    requires ds.Valid()
    modifies ds.parent
    ensures ds.Valid()
    ensures GroupedUpTo(ds.root, order, groups, ds.n)
  {
    order, groups := [], map[];
    for i := 0 to ds.n
      invariant ds.Valid()
      invariant GroupedUpTo(ds.root, order, groups, i)
    {
      order, groups := AddToGroup(ds, order, groups, i);
    }
  }

  /** One step of the grouping loop, for element `i`. */
  method AddToGroup(ds: DisjointSet, order: seq<nat>, groups: map<nat, seq<nat>>, i: nat)
    returns (order': seq<nat>, groups': map<nat, seq<nat>>)
    requires ds.Valid() && i < ds.n
    requires GroupedUpTo(ds.root, order, groups, i)
    modifies ds.parent
    ensures ds.Valid()
    ensures GroupedUpTo(ds.root, order', groups', i + 1)
  {
    var r := ds.Find(i);
    if r in groups {
      ExtendGroup(ds.root, order, groups, i);
      order', groups' := order, groups[r := groups[r] + [i]];
    } else {
      NewGroup(ds.root, order, groups, i);
      order', groups' := order + [r], groups[r := [i]];
    }
  }

  /** Position of the first largest key, as Python's `max` picks it. */
  function FirstMax(keys: seq<int>): (p: nat)
    requires keys != []
    ensures p < |keys|
    ensures forall k | 0 <= k < |keys| :: keys[k] <= keys[p]
    ensures forall k | 0 <= k < p :: keys[k] < keys[p]
  {
    if |keys| == 1 then 0
    else
      var q := FirstMax(keys[..|keys| - 1]);
      if keys[|keys| - 1] > keys[q] then |keys| - 1 else q
  }

  function Scores(slides: seq<string>, sharpness: string -> int, group: seq<nat>): (s: seq<int>)
    requires forall a | 0 <= a < |group| :: group[a] < |slides|
    ensures |s| == |group|
    ensures forall a | 0 <= a < |group| :: s[a] == sharpness(slides[group[a]])
  {
    seq(|group|, a requires 0 <= a < |group| => sharpness(slides[group[a]]))
  }

  /** `max(group, key=lambda i: sharpness(slides[i]))`. */
  function Sharpest(slides: seq<string>, sharpness: string -> int, group: seq<nat>): nat
    requires group != [] && forall a | 0 <= a < |group| :: group[a] < |slides|
  {
    group[FirstMax(Scores(slides, sharpness, group))]
  }

  /** The kept slide of an ascending group is a member, at least as sharp as
      every member, and the lowest-numbered among the equally sharp. */
  lemma SharpestOfGroup(slides: seq<string>, sharpness: string -> int, group: seq<nat>)
    requires group != [] && forall a | 0 <= a < |group| :: group[a] < |slides|
    requires Increasing(group)
    ensures Sharpest(slides, sharpness, group) in group
    ensures forall x <- group :: sharpness(slides[x]) <= sharpness(slides[Sharpest(slides, sharpness, group)])
    ensures forall x <- group ::
      sharpness(slides[x]) == sharpness(slides[Sharpest(slides, sharpness, group)]) ==> Sharpest(slides, sharpness, group) <= x
  {
    var s := Scores(slides, sharpness, group);
    var p := FirstMax(s);
    forall x <- group
      ensures sharpness(slides[x]) <= sharpness(slides[group[p]])
      ensures sharpness(slides[x]) == sharpness(slides[group[p]]) ==> group[p] <= x
    {
      var a :| 0 <= a < |group| && group[a] == x;
      assert s[a] <= s[p];
      if a < p {
        assert s[a] < s[p];
      }
    }
  }

  /** The selection loop inside Python's `max`: the first slide whose
      sharpness beats every earlier one. */
  method PickSharpest(slides: seq<string>, sharpness: string -> int, group: seq<nat>) returns (best: nat)
    requires group != [] && forall a | 0 <= a < |group| :: group[a] < |slides|
    ensures best == Sharpest(slides, sharpness, group)
  {
    ghost var s := Scores(slides, sharpness, group);
    ghost var p := 0;
    best := group[0];
    var bestScore := sharpness(slides[best]);
    for k := 1 to |group|
      invariant p < k && best == group[p] && bestScore == s[p]
      invariant p == FirstMax(s[..k])
    {
      assert s[..k + 1][..k] == s[..k];
      var score := sharpness(slides[group[k]]);
      if score > bestScore {
        p, best, bestScore := k, group[k], score;
      }
    }
    assert s[..|group|] == s;
  }

  ghost predicate InSomeGroup(groups: seq<seq<nat>>, x: nat)
  {
    exists g :: 0 <= g < |groups| && x in groups[g]
  }

  /** The groups partition the slide indices 0 .. n-1; each is ascending. */
  ghost predicate Partition(groups: seq<seq<nat>>, n: nat)
  {
    && (forall g | 0 <= g < |groups| :: groups[g] != [] && Increasing(groups[g]))
    && (forall g, a | 0 <= g < |groups| && 0 <= a < |groups[g]| :: groups[g][a] < n)
    && (forall x | 0 <= x < n :: InSomeGroup(groups, x))
    && (forall g, h, x | 0 <= g < h < |groups| && x in groups[g] :: x !in groups[h])
  }

  /** Two slides are in one group exactly when a chain of near duplicates joins them. */
  ghost predicate Components(groups: seq<seq<nat>>, hashes: seq<Hash>, threshold: int)
  {
    forall g, h, x, y | 0 <= g < |groups| && 0 <= h < |groups| && x in groups[g] && y in groups[h] ::
      g == h <==> Linked(hashes, threshold, x, y)
  }

  /** The kept slide of every group, in group order. */
  function Representatives(slides: seq<string>, sharpness: string -> int, groups: seq<seq<nat>>): (r: seq<string>)
    requires forall g | 0 <= g < |groups| :: groups[g] != []
    requires forall g, a | 0 <= g < |groups| && 0 <= a < |groups[g]| :: groups[g][a] < |slides|
    ensures |r| == |groups|
  {
    seq(|groups|, g requires 0 <= g < |groups| => slides[Sharpest(slides, sharpness, groups[g])])
  }

  /** The dictionary's groups in key order are the classes of `root`. */
  lemma GroupsAreClasses(root: seq<nat>, order: seq<nat>, groups: map<nat, seq<nat>>, classes: seq<seq<nat>>)
    requires GroupedUpTo(root, order, groups, |root|)
    requires |classes| == |order| && forall g | 0 <= g < |order| :: classes[g] == groups[order[g]]
    ensures Partition(classes, |root|)
    ensures forall g, x: nat | 0 <= g < |classes| :: x in classes[g] <==> x < |root| && root[x] == order[g]
  {
    forall g | 0 <= g < |classes|
      ensures classes[g] == Members(root, order[g], |root|) && classes[g] != []
    {
      assert order[g] in groups;
    }
    forall x | 0 <= x < |root| ensures InSomeGroup(classes, x) {
      assert root[x] in order;
      var g :| 0 <= g < |order| && order[g] == root[x];
      assert x in classes[g];
    }
    forall g, h, x | 0 <= g < h < |classes| && x in classes[g] ensures x !in classes[h] {
      assert order[g] != order[h];
    }
  }

  /** Classes of a `root` that links exactly the chained slides are the components. */
  lemma ClassesAreComponents(
    hashes: seq<Hash>, threshold: int, root: seq<nat>, order: seq<nat>, classes: seq<seq<nat>>)
    requires |root| == |hashes| && |classes| == |order|
    requires forall x, y | 0 <= x < |root| && 0 <= y < |root| ::
      root[x] == root[y] <==> Linked(hashes, threshold, x, y)
    requires forall a, b | 0 <= a < b < |order| :: order[a] != order[b]
    requires forall g, x: nat | 0 <= g < |classes| :: x in classes[g] <==> x < |root| && root[x] == order[g]
    ensures Components(classes, hashes, threshold)
  {
    forall g, h, x, y | 0 <= g < |classes| && 0 <= h < |classes| && x in classes[g] && y in classes[h]
      ensures g == h <==> Linked(hashes, threshold, x, y)
    {
      assert root[x] == order[g] && root[y] == order[h];
    }
  }

  /** Lines 51-76 of the source: hash every slide, join near duplicates, and
      list the groups in dictionary order. */
  method GroupSlides(hashes: seq<Hash>, threshold: int) returns (groups: seq<seq<nat>>)
    ensures Partition(groups, |hashes|)
    ensures Components(groups, hashes, threshold)
  {
    var ds := new DisjointSet(|hashes|);
    LinkSimilar(ds, hashes, threshold);
    var order, byRoot := CollectGroups(ds);
    groups := seq(|order|, g requires 0 <= g < |order| => byRoot[order[g]]);
    GroupsAreClasses(ds.root, order, byRoot, groups);
    ClassesAreComponents(hashes, threshold, ds.root, order, groups);
  }

  /** The loop over `groups.values()` keeping the sharpest slide of each. */
  method KeepSharpest(slides: seq<string>, sharpness: string -> int, groups: seq<seq<nat>>)
    returns (kept: seq<string>)
    requires Partition(groups, |slides|)
    ensures kept == Representatives(slides, sharpness, groups)
  {
    kept := [];
    for g := 0 to |groups|
      invariant kept == Representatives(slides, sharpness, groups)[..g]
    {
      var best := PickSharpest(slides, sharpness, groups[g]);
      kept := kept + [slides[best]];
    }
  }

  /** Python's `deduplicate`: `existing` is the listing of slides already in
      the output directory, `slides` the listing of the input directory.
      `groups` names the groups the result was chosen from. */
  method Deduplicate(
    existing: seq<string>, slides: seq<string>,
    phash: string -> Hash, sharpness: string -> int, threshold: int)
    returns (result: seq<string>, ghost groups: seq<seq<nat>>)
    ensures existing != [] ==> result == existing
    ensures existing == [] ==>
      && Partition(groups, |slides|)
      && Components(groups, HashAll(slides, phash), threshold)
      && Names.Sorted(result)
      && multiset(result) == multiset(Representatives(slides, sharpness, groups))
  {
    groups := [];
    if existing != [] {
      return existing, groups;
    }
    if slides == [] {
      return [], groups;
    }
    var hashes := HashAll(slides, phash);
    var byGroup := GroupSlides(hashes, threshold);
    groups := byGroup;
    var kept := KeepSharpest(slides, sharpness, byGroup);
    result := Names.SortNames(kept);
  }
}

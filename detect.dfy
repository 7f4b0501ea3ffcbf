/** The transition detector of detect.py: one pass over the hashes of the
    frames, keeping each frame that is followed by a large change, and always
    keeping the last frame. */
module Detect {
  import opened PerceptualHash
  import Names
  import opened Indices

  /** Frame `i` is the last of its scene: the next frame is further away than `threshold`. */
  predicate Jump(hashes: seq<Hash>, threshold: int, i: nat)
    requires i + 1 < |hashes|
  {
    Distance(hashes[i], hashes[i + 1]) > threshold
  }

  /** The scene ends found among the first `k` adjacent pairs, in order. */
  function SceneEnds(hashes: seq<Hash>, threshold: int, k: nat): (ends: seq<nat>)
    requires k < |hashes|
    ensures forall i: nat :: i in ends <==> i < k && Jump(hashes, threshold, i)
    ensures forall a | 0 <= a < |ends| :: ends[a] < k
    ensures Increasing(ends)
    ensures |ends| <= k
  {
    if k == 0 then []
    else
      var prev := SceneEnds(hashes, threshold, k - 1);
      assert forall a | 0 <= a < |prev| :: prev[a] in prev && prev[a] < k - 1;
      prev + (if Jump(hashes, threshold, k - 1) then [k - 1] else [])
  }

  /** Indices of the frames the detector keeps. */
  function CandidateIndices(hashes: seq<Hash>, threshold: int): (idx: seq<nat>)
    ensures hashes == [] ==> idx == []
    ensures hashes != [] ==> 1 <= |idx| <= |hashes| && idx[|idx| - 1] == |hashes| - 1
    ensures forall i: nat :: i in idx <==>
      i == |hashes| - 1 || (i + 1 < |hashes| && Jump(hashes, threshold, i))
    ensures forall a | 0 <= a < |idx| :: idx[a] < |hashes|
    ensures Increasing(idx)
  {
    if hashes == [] then []
    else
      var ends := SceneEnds(hashes, threshold, |hashes| - 1);
      assert forall a | 0 <= a < |ends| :: ends[a] in ends && ends[a] < |hashes| - 1;
      ends + [|hashes| - 1]
  }

  /** The frames at the given indices. */
  function Pick(frames: seq<string>, idx: seq<nat>): (r: seq<string>)
    requires forall k | 0 <= k < |idx| :: idx[k] < |frames|
    ensures |r| == |idx|
  {
    seq(|idx|, k requires 0 <= k < |idx| => frames[idx[k]])
  }

  lemma PickAppend(frames: seq<string>, idx: seq<nat>, j: nat)
    requires forall k | 0 <= k < |idx| :: idx[k] < |frames|
    requires j < |frames|
    ensures Pick(frames, idx + [j]) == Pick(frames, idx) + [frames[j]]
  {
  }

  /** Python's `detect_transitions`: `existing` is the listing of frames
      already in the output directory, `frames` the listing of the input
      directory (both as `sorted(glob(...))` returns them). */
  method DetectTransitions(existing: seq<string>, frames: seq<string>, phash: string -> Hash, threshold: int)
    returns (result: seq<string>)
    ensures existing != [] ==> result == existing
    ensures existing == [] ==> result == Pick(frames, CandidateIndices(HashAll(frames, phash), threshold))
    ensures existing == [] && |frames| == 1 ==> result == frames
  {
    if existing != [] {
      return existing;
    }
    if frames == [] {
      return [];
    }
    var hashes := HashAll(frames, phash);
    result := ScanFrames(frames, hashes, threshold);
    if |frames| == 1 {
      assert result == [frames[0]];
    }
  }

  /** The loop of `detect_transitions` over adjacent pairs, then the last frame. */
  method ScanFrames(frames: seq<string>, hashes: seq<Hash>, threshold: int)
    returns (candidates: seq<string>)
    requires |hashes| == |frames| > 0
    ensures candidates == Pick(frames, CandidateIndices(hashes, threshold))
  {
    candidates := [];
    ghost var ends: seq<nat> := [];
    for i := 0 to |frames| - 1
      invariant ends == SceneEnds(hashes, threshold, i)
      invariant candidates == Pick(frames, ends)
    {
      var dist := Distance(hashes[i], hashes[i + 1]);
      if dist > threshold {
        PickAppend(frames, ends, i);
        candidates := candidates + [frames[i]];
        ends := ends + [i];
      }
    }
    PickAppend(frames, ends, |frames| - 1);
    candidates := candidates + [frames[|frames| - 1]];
  }

  /** A larger threshold keeps a subset of the frames, and no more of them. */
  lemma {:induction false} SceneEndsMonotone(hashes: seq<Hash>, t1: int, t2: int, k: nat)
    requires t1 <= t2 && k < |hashes|
    ensures forall i <- SceneEnds(hashes, t2, k) :: i in SceneEnds(hashes, t1, k)
    ensures |SceneEnds(hashes, t2, k)| <= |SceneEnds(hashes, t1, k)|
  {
    if k > 0 {
      SceneEndsMonotone(hashes, t1, t2, k - 1);
    }
  }

  lemma ThresholdMonotone(hashes: seq<Hash>, t1: int, t2: int)
    requires t1 <= t2
    ensures forall i <- CandidateIndices(hashes, t2) :: i in CandidateIndices(hashes, t1)
    ensures |CandidateIndices(hashes, t2)| <= |CandidateIndices(hashes, t1)|
  {
    if hashes != [] {
      var n := |hashes|;
      SceneEndsMonotone(hashes, t1, t2, n - 1);
      assert CandidateIndices(hashes, t2) == SceneEnds(hashes, t2, n - 1) + [n - 1];
      assert CandidateIndices(hashes, t1) == SceneEnds(hashes, t1, n - 1) + [n - 1];
    }
  }

  /** The candidate count is one (the last frame) plus the number of jumps. */
  lemma CandidateCount(hashes: seq<Hash>, threshold: int)
    requires hashes != []
    ensures |CandidateIndices(hashes, threshold)| == 1 + |SceneEnds(hashes, threshold, |hashes| - 1)|
    ensures forall i <- SceneEnds(hashes, threshold, |hashes| - 1) :: Jump(hashes, threshold, i)
  {
  }

  /** Frames picked at increasing indices from a sorted listing stay sorted. */
  lemma PickStrictlySorted(frames: seq<string>, idx: seq<nat>)
    requires forall k | 0 <= k < |idx| :: idx[k] < |frames|
    requires Names.StrictlySorted(frames) && Increasing(idx)
    ensures Names.StrictlySorted(Pick(frames, idx))
  {
    var r := Pick(frames, idx);
    forall a, b | 0 <= a < b < |r| ensures Names.Below(r[a], r[b]) {
      assert idx[a] < idx[b];
    }
  }

  /** With frames listed in name order, the candidates are in name order. */
  lemma CandidatesSorted(frames: seq<string>, phash: string -> Hash, threshold: int)
    requires Names.StrictlySorted(frames)
    ensures Names.StrictlySorted(Pick(frames, CandidateIndices(HashAll(frames, phash), threshold)))
  {
    var idx := CandidateIndices(HashAll(frames, phash), threshold);
    assert forall k | 0 <= k < |idx| :: idx[k] in idx;
    PickStrictlySorted(frames, idx);
  }

  /** Twelve frames in two scenes of five and seven frames: the detector keeps
      the last frame of each scene. */
  lemma TwoScenes(hashes: seq<Hash>)
    requires |hashes| == 12
    requires forall i | 0 <= i < 11 :: Distance(hashes[i], hashes[i + 1]) > 10 <==> i == 4
    ensures CandidateIndices(hashes, 10) == [4, 11]
  {
    TwoScenesEnds(hashes, 11);
  }

  lemma {:induction false} TwoScenesEnds(hashes: seq<Hash>, k: nat)
    requires |hashes| == 12 && k < 12
    requires forall i | 0 <= i < 11 :: Distance(hashes[i], hashes[i + 1]) > 10 <==> i == 4
    ensures SceneEnds(hashes, 10, k) == if k <= 4 then [] else [4]
  {
    if k > 0 {
      TwoScenesEnds(hashes, k - 1);
    }
  }
}

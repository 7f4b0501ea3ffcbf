/** Perceptual hashes as `imagehash` represents them: a fixed-size array of
    bits, compared by the number of positions in which two hashes differ
    (what `ImageHash.__sub__` returns). Computing a hash from pixels is not
    part of this model: the pipeline stages receive it as a function. */
module PerceptualHash {

  /** `imagehash.phash` with its default `hash_size=8`: an 8 x 8 bit matrix. */
  const HASH_BITS: nat := 64

  type Hash = h: seq<bool> | |h| == HASH_BITS witness seq(HASH_BITS, _ => false)

  /** `[phash(f) for f in frames]`: the hash of every frame, each computed once. */
  function HashAll(frames: seq<string>, phash: string -> Hash): (hashes: seq<Hash>)
    ensures |hashes| == |frames|
    ensures forall i | 0 <= i < |frames| :: hashes[i] == phash(frames[i])
  {
    seq(|frames|, i requires 0 <= i < |frames| => phash(frames[i]))
  }

  /** Number of positions at which two equally long bit strings differ. */
  function Differing(a: seq<bool>, b: seq<bool>): (d: nat)
    requires |a| == |b|
    ensures d <= |a|
    ensures d == 0 <==> a == b
  {
    if a == [] then 0
    else
      assert a == b <==> a[0] == b[0] && a[1..] == b[1..] by {
        assert a == [a[0]] + a[1..] && b == [b[0]] + b[1..];
      }
      (if a[0] != b[0] then 1 else 0) + Differing(a[1..], b[1..])
  }

  /** `h1 - h2` on two `ImageHash` values. */
  function Distance(a: Hash, b: Hash): (d: nat)
    ensures d <= HASH_BITS
    ensures d == 0 <==> a == b
  {
    Differing(a, b)
  }

  lemma {:induction false} DifferingSymmetric(a: seq<bool>, b: seq<bool>)
    requires |a| == |b|
    ensures Differing(a, b) == Differing(b, a)
  {
    if a != [] {
      DifferingSymmetric(a[1..], b[1..]);
    }
  }

  /** The distance does not depend on the order of its arguments, so testing
      only the pairs i < j covers every unordered pair. */
  lemma DistanceSymmetric(a: Hash, b: Hash)
    ensures Distance(a, b) == Distance(b, a)
  {
    DifferingSymmetric(a, b);
  }
}

/** The resumable batch classifier: reading the model's reply for one batch,
    and the manifest / batch / flush state machine of `classify_slides`. */
module Classify {
  import opened Wrappers
  import opened Text
  import Names

  /** How many images go into one classifier request. */
  const BATCH_SIZE: nat := 10

  // ---------------------------------------------------------------------
  // Reading a reply

  /** A reply line is a "yes" when its upper-cased text contains "SLIDE"
      and does not contain "NOT_SLIDE". */
  predicate IsSlideLine(line: string)
  {
    var u := Upper(line);
    Contains(u, "SLIDE") && !Contains(u, "NOT_SLIDE")
  }

  /** "NOT_SLIDE" contains "SLIDE": a NOT_SLIDE line passes the first test
      and is turned down only by the second. */
  lemma NotSlideLine(line: string)
    requires Contains(Upper(line), "NOT_SLIDE")
    ensures Contains(Upper(line), "SLIDE")
    ensures !IsSlideLine(line)
  {
    ContainsSuffix(Upper(line), "NOT_SLIDE", 4);
    assert "NOT_SLIDE"[4..] == "SLIDE";
  }

  /** A string containing `sub` contains every suffix of `sub`. */
  lemma {:induction false} ContainsSuffix(s: string, sub: string, k: nat)
    requires Contains(s, sub) && k <= |sub|
    ensures Contains(s, sub[k..])
    decreases |s|
  {
    if sub <= s {
      assert s[k..k + |sub[k..]|] == sub[k..];
      ContainsAt(s, sub[k..], k);
    } else {
      ContainsSuffix(s[1..], sub, k);
    }
  }

  /** The verdicts for a batch of `n` images from the lines of the stripped
      reply: one per line, then padded with `false`, then cut to `n`. */
  function Verdicts(lines: seq<string>, n: nat): (r: seq<bool>)
    ensures |r| == n
    ensures forall k | 0 <= k < n :: r[k] <==> k < |lines| && IsSlideLine(lines[k])
  {
    var parsed := LineVerdicts(lines);
    var padded := if |parsed| < n then parsed + seq(n - |parsed|, _ => false) else parsed;
    padded[..n]
  }

  /** One verdict per line. */
  function LineVerdicts(lines: seq<string>): (r: seq<bool>)
    ensures |r| == |lines|
    ensures forall k | 0 <= k < |lines| :: r[k] == IsSlideLine(lines[k])
  {
    seq(|lines|, k requires 0 <= k < |lines| => IsSlideLine(lines[k]))
  }

  /** The lines `_classify_batch` reads its verdicts from. */
  function ReplyLines(reply: string): seq<string>
  {
    SplitLines(Strip(reply))
  }

  /** `_classify_batch` after the request: the verdict loop over the
      lines, the padding loop and the final slice. */
  method ParseReply(reply: string, n: nat) returns (results: seq<bool>)
    ensures results == Verdicts(ReplyLines(reply), n)
  {
    var lines := ReplyLines(reply);
    results := ReadLines(lines);
    while |results| < n
      invariant |results| >= |lines|
      invariant results[..|lines|] == LineVerdicts(lines)
      invariant forall j | |lines| <= j < |results| :: !results[j]
      decreases n - |results|
    {
      results := results + [false];
    }
    results := results[..n];
  }

  /** The loop appending one verdict per reply line. */
  method ReadLines(lines: seq<string>) returns (results: seq<bool>)
    ensures results == LineVerdicts(lines)
  {
    ghost var parsed := LineVerdicts(lines);
    results := [];
    for k := 0 to |lines|
      invariant results == parsed[..k]
    {
      assert parsed[..k + 1] == parsed[..k] + [parsed[k]];
      results := results + [IsSlideLine(lines[k])];
    }
  }

  /** Upper-casing makes "Slide" a "yes" and "not_slide" a "no". */
  lemma CaseInsensitive()
    ensures IsSlideLine("Slide")
    ensures !IsSlideLine("not_slide")
  {
    assert Upper("Slide") == "SLIDE";
    ContainsAt("SLIDE", "SLIDE", 0);
    assert !Contains("SLIDE", "NOT_SLIDE");
    assert Upper("not_slide") == "NOT_SLIDE";
    ContainsAt("NOT_SLIDE", "NOT_SLIDE", 0);
  }

  /** Too few lines are padded with `false`; too many are cut off. */
  lemma ShortAndLongReplies()
    ensures Verdicts(["Slide", "not_slide"], 3) == [true, false, false]
    ensures Verdicts(["not_slide", "Slide", "Slide"], 2) == [false, true]
  {
    CaseInsensitive();
  }

  // ---------------------------------------------------------------------
  // The manifest and the output directory

  /** The persistent state the run works on: the manifest (file name to
      "SLIDE" / "NOT_SLIDE") and the names present in the output directory. */
  datatype State<N(==)> = State(manifest: map<N, string>, files: set<N>)

  /** The result of a run: the slide names, or a classifier failure that
      ends the run with an exception. */
  datatype Outcome = Done(slides: seq<string>) | Aborted

  function Label(slide: bool): (l: string)
    ensures l == "SLIDE" <==> slide
  {
    if slide then "SLIDE" else "NOT_SLIDE"
  }

  /** The manifest as loaded: the stored one, or empty when there is none. */
  function Loaded(stored: Option<map<string, string>>): map<string, string>
  {
    if stored.Some? then stored.value else map[]
  }

  /** Candidates that have no manifest entry yet, in their original order. */
  function Remaining<N(==,!new)>(candidates: seq<N>, manifest: map<N, string>): (r: seq<N>)
    ensures forall c :: c in r <==> c in candidates && c !in manifest
    ensures |r| <= |candidates|
  {
    if candidates == [] then []
    else (if candidates[0] in manifest then [] else [candidates[0]]) + Remaining(candidates[1..], manifest)
  }

  function Flatten<N(==)>(bs: seq<seq<N>>): (s: seq<N>)
  {
    if bs == [] then [] else bs[0] + Flatten(bs[1..])
  }

  lemma {:induction false} InFlatten<N>(bs: seq<seq<N>>, c: N)
    ensures c in Flatten(bs) <==> exists j :: 0 <= j < |bs| && c in bs[j]
  {
    if bs != [] {
      InFlatten(bs[1..], c);
      if c in Flatten(bs[1..]) {
        var j :| 0 <= j < |bs[1..]| && c in bs[1..][j];
        assert c in bs[j + 1];
      }
      if exists j :: 0 <= j < |bs| && c in bs[j] {
        var j :| 0 <= j < |bs| && c in bs[j];
        if j > 0 {
          assert c in bs[1..][j - 1];
        }
      }
    }
  }

  lemma {:induction false} FlattenAppend<N>(a: seq<seq<N>>, b: seq<seq<N>>)
    ensures Flatten(a + b) == Flatten(a) + Flatten(b)
    decreases |a|
  {
    if a == [] {
      assert a + b == b;
    } else {
      assert (a + b)[1..] == a[1..] + b;
      FlattenAppend(a[1..], b);
    }
  }

  lemma {:induction false} RemainingAppend<N(!new)>(a: seq<N>, b: seq<N>, manifest: map<N, string>)
    ensures Remaining(a + b, manifest) == Remaining(a, manifest) + Remaining(b, manifest)
    decreases |a|
  {
    if a == [] {
      assert a + b == b;
    } else {
      assert (a + b)[1..] == a[1..] + b;
      RemainingAppend(a[1..], b, manifest);
    }
  }

  /** Names that all have entries leave nothing remaining. */
  lemma RemainingAllIn<N(!new)>(a: seq<N>, manifest: map<N, string>)
    requires forall c <- a :: c in manifest
    ensures Remaining(a, manifest) == []
  {
    if Remaining(a, manifest) != [] {
      assert Remaining(a, manifest)[0] in Remaining(a, manifest);
    }
  }

  /** Names none of which has an entry all remain, in order. */
  lemma {:induction false} RemainingNoneIn<N(!new)>(a: seq<N>, manifest: map<N, string>)
    requires forall c <- a :: c !in manifest
    ensures Remaining(a, manifest) == a
    decreases |a|
  {
    if a != [] {
      assert forall c <- a[1..] :: c in a;
      RemainingNoneIn(a[1..], manifest);
      assert [a[0]] + a[1..] == a;
    }
  }

  /** Filtering by a larger manifest can be done after filtering by a smaller one. */
  lemma {:induction false} RemainingNarrow<N(!new)>(candidates: seq<N>, small: map<N, string>, large: map<N, string>)
    requires small.Keys <= large.Keys
    ensures Remaining(candidates, large) == Remaining(Remaining(candidates, small), large)
    decreases |candidates|
  {
    if candidates != [] {
      var c := candidates[0];
      RemainingNarrow(candidates[1..], small, large);
      RemainingAppend(if c in small then [] else [c], Remaining(candidates[1..], small), large);
    }
  }

  /** Slices `remaining` into batches of `BATCH_SIZE`, the last possibly shorter. */
  function Batches<N(==)>(s: seq<N>): (bs: seq<seq<N>>)
    ensures |bs| == (|s| + BATCH_SIZE - 1) / BATCH_SIZE
    decreases |s|
  {
    if s == [] then []
    else if |s| <= BATCH_SIZE then [s]
    else [s[..BATCH_SIZE]] + Batches(s[BATCH_SIZE..])
  }

  /** Batch `j` is the slice `s[j * BATCH_SIZE : (j + 1) * BATCH_SIZE]`, as
      the comprehension over `range(0, len(s), BATCH_SIZE)` takes it. */
  lemma {:induction false} BatchesAreSlices<N>(s: seq<N>, j: nat)
    requires j < |Batches(s)|
    ensures j * BATCH_SIZE < |s|
    ensures Batches(s)[j] == s[j * BATCH_SIZE .. if (j + 1) * BATCH_SIZE <= |s| then (j + 1) * BATCH_SIZE else |s|]
    decreases |s|
  {
    if |s| > BATCH_SIZE && j > 0 {
      var t := s[BATCH_SIZE..];
      BatchesAreSlices(t, j - 1);
      assert (j - 1) * BATCH_SIZE + BATCH_SIZE == j * BATCH_SIZE;
      var hi := if (j + 1) * BATCH_SIZE <= |s| then (j + 1) * BATCH_SIZE else |s|;
      SliceOfSuffix(s, BATCH_SIZE, (j - 1) * BATCH_SIZE, hi - BATCH_SIZE);
    }
  }

  /** A slice of a suffix is a slice of the whole, shifted by the suffix's start. */
  lemma SliceOfSuffix<N>(s: seq<N>, d: nat, a: nat, b: nat)
    requires d <= |s| && a <= b <= |s| - d
    ensures s[d..][a..b] == s[d + a .. d + b]
  {
  }

  /** The batches are non-empty, none is larger than `BATCH_SIZE`, all but
      the last are full, and together they are `s` in order. */
  lemma {:induction false} BatchesCover<N>(s: seq<N>)
    ensures forall j | 0 <= j < |Batches(s)| :: 0 < |Batches(s)[j]| <= BATCH_SIZE
    ensures forall j | 0 <= j < |Batches(s)| - 1 :: |Batches(s)[j]| == BATCH_SIZE
    ensures Flatten(Batches(s)) == s
    decreases |s|
  {
    if s != [] && |s| > BATCH_SIZE {
      BatchesCover(s[BATCH_SIZE..]);
      assert s[..BATCH_SIZE] + s[BATCH_SIZE..] == s;
    }
  }

  /** One pass of the inner loop: label `name` and copy it when it is a slide. */
  function Step<N(==)>(st: State<N>, name: N, slide: bool): State<N>
  {
    State(st.manifest[name := Label(slide)], if slide then st.files + {name} else st.files)
  }

  /** The inner loop over `zip(batch, verdicts)`. */
  function Apply<N(==)>(st: State<N>, batch: seq<N>, verdicts: seq<bool>): (r: State<N>)
    requires |verdicts| == |batch|
    ensures st.files <= r.files
    decreases |batch|
  {
    if batch == [] then st
    else
      var n := |batch| - 1;
      Step(Apply(st, batch[..n], verdicts[..n]), batch[n], verdicts[n])
  }

  /** A batch adds exactly its names to the manifest, and leaves the entries
      of every other name as they were. */
  lemma {:induction false} ApplyEntries<N>(st: State<N>, batch: seq<N>, verdicts: seq<bool>, c: N)
    requires |verdicts| == |batch|
    ensures c in Apply(st, batch, verdicts).manifest <==> c in st.manifest || c in batch
    ensures c in batch ==>
      Apply(st, batch, verdicts).manifest[c] == "SLIDE" || Apply(st, batch, verdicts).manifest[c] == "NOT_SLIDE"
    ensures c in st.manifest && c !in batch ==> Apply(st, batch, verdicts).manifest[c] == st.manifest[c]
    decreases |batch|
  {
    if batch != [] {
      var n := |batch| - 1;
      ApplyEntries(st, batch[..n], verdicts[..n], c);
      assert batch == batch[..n] + [batch[n]];
    }
  }

  /** A name a batch labels "SLIDE", and that had no entry before, has been copied. */
  lemma {:induction false} ApplyCopies<N>(st: State<N>, batch: seq<N>, verdicts: seq<bool>, c: N)
    requires |verdicts| == |batch|
    requires c in Apply(st, batch, verdicts).manifest && (c !in st.manifest || c in batch)
    requires Apply(st, batch, verdicts).manifest[c] == "SLIDE"
    ensures c in Apply(st, batch, verdicts).files
    decreases |batch|
  {
    var n := |batch| - 1;
    if c != batch[n] {
      ApplyCopies(st, batch[..n], verdicts[..n], c);
    }
  }

  /** In a batch without repeated names, every name carries its own verdict. */
  lemma {:induction false} ApplyLabels<N>(st: State<N>, batch: seq<N>, verdicts: seq<bool>, k: nat)
    requires |verdicts| == |batch| && k < |batch|
    requires forall a, b | 0 <= a < b < |batch| :: batch[a] != batch[b]
    ensures batch[k] in Apply(st, batch, verdicts).manifest
    ensures Apply(st, batch, verdicts).manifest[batch[k]] == Label(verdicts[k])
    decreases |batch|
  {
    ApplyEntries(st, batch, verdicts, batch[k]);
    var n := |batch| - 1;
    if k < n {
      ApplyLabels(st, batch[..n], verdicts[..n], k);
    }
  }

  /** What `_classify_batch` yields for one batch: the verdicts read from
      the reply, or `None` when the request fails. */
  function Answer<N>(classifier: seq<N> -> Option<string>, batch: seq<N>): (a: Option<seq<bool>>)
    ensures a.Some? <==> classifier(batch).Some?
    ensures a.Some? ==> |a.value| == |batch|
  {
    if classifier(batch).None? then None else Some(Verdicts(ReplyLines(classifier(batch).value), |batch|))
  }

  /** The classifier seen through `_classify_batch`. */
  function Answers<N>(classifier: seq<N> -> Option<string>): seq<N> -> Option<seq<bool>>
  {
    batch => Answer(classifier, batch)
  }

  /** Every answer has one verdict per name of its batch. */
  ghost predicate Fits<N>(answers: seq<N> -> Option<seq<bool>>, bs: seq<seq<N>>)
  {
    forall j | 0 <= j < |bs| :: answers(bs[j]).Some? ==> |answers(bs[j]).value| == |bs[j]|
  }

  lemma AnswersFit<N>(classifier: seq<N> -> Option<string>, bs: seq<seq<N>>)
    ensures Fits(Answers(classifier), bs)
  {
    forall j | 0 <= j < |bs| ensures Answers(classifier)(bs[j]) == Answer(classifier, bs[j]) {
    }
  }

  /** The number of leading batches that are answered. */
  function Answered<N(==)>(bs: seq<seq<N>>, answers: seq<N> -> Option<seq<bool>>): (k: nat)
    ensures k <= |bs|
    ensures forall j | 0 <= j < k :: answers(bs[j]).Some?
    ensures k < |bs| ==> answers(bs[k]).None?
  {
    if bs == [] || answers(bs[0]).None? then 0 else 1 + Answered(bs[1..], answers)
  }

  /** The state after the outer loop has handled the batches `bs`. */
  function Run<N(==)>(st: State<N>, bs: seq<seq<N>>, answers: seq<N> -> Option<seq<bool>>): State<N>
    requires Fits(answers, bs) && forall j | 0 <= j < |bs| :: answers(bs[j]).Some?
    decreases |bs|
  {
    if bs == [] then st
    else
      var n := |bs| - 1;
      assert Fits(answers, bs[..n]) by {
        assert forall j | 0 <= j < n :: bs[..n][j] == bs[j];
      }
      Apply(Run(st, bs[..n], answers), bs[n], answers(bs[n]).value)
  }

  /** After the run, every name of every batch has an entry and no earlier
      entry has gone. */
  lemma {:induction false} RunCovers<N>(
    st: State<N>, bs: seq<seq<N>>, answers: seq<N> -> Option<seq<bool>>, c: N)
    requires Fits(answers, bs) && forall j | 0 <= j < |bs| :: answers(bs[j]).Some?
    requires c in st.manifest || exists j :: 0 <= j < |bs| && c in bs[j]
    ensures c in Run(st, bs, answers).manifest
    decreases |bs|
  {
    if bs != [] {
      var n := |bs| - 1;
      assert forall j | 0 <= j < n :: bs[..n][j] == bs[j];
      var v := answers(bs[n]).value;
      ApplyEntries(Run(st, bs[..n], answers), bs[n], v, c);
      if c !in bs[n] {
        if c !in st.manifest {
          var j :| 0 <= j < |bs| && c in bs[j];
          assert c in bs[..n][j];
        }
        RunCovers(st, bs[..n], answers, c);
      }
    }
  }

  /** Every "SLIDE" entry the run made has its copy in the output directory. */
  lemma {:induction false} RunCopies<N>(
    st: State<N>, bs: seq<seq<N>>, answers: seq<N> -> Option<seq<bool>>, c: N)
    requires Fits(answers, bs) && forall j | 0 <= j < |bs| :: answers(bs[j]).Some?
    requires c in Run(st, bs, answers).manifest && c !in st.manifest
    requires Run(st, bs, answers).manifest[c] == "SLIDE"
    ensures c in Run(st, bs, answers).files
    decreases |bs|
  {
    var n := |bs| - 1;
    assert forall j | 0 <= j < n :: bs[..n][j] == bs[j];
    var prev := Run(st, bs[..n], answers);
    var v := answers(bs[n]).value;
    ApplyEntries(prev, bs[n], v, c);
    if c in prev.manifest && c !in bs[n] {
      RunCopies(st, bs[..n], answers, c);
    } else {
      ApplyCopies(prev, bs[n], v, c);
    }
  }

  /** An entry for a name that no batch contains is never changed. */
  lemma {:induction false} RunKeeps<N>(
    st: State<N>, bs: seq<seq<N>>, answers: seq<N> -> Option<seq<bool>>, c: N)
    requires Fits(answers, bs) && forall j | 0 <= j < |bs| :: answers(bs[j]).Some?
    requires c in st.manifest && forall j | 0 <= j < |bs| :: c !in bs[j]
    ensures c in Run(st, bs, answers).manifest
    ensures Run(st, bs, answers).manifest[c] == st.manifest[c]
    decreases |bs|
  {
    if bs != [] {
      var n := |bs| - 1;
      assert forall j | 0 <= j < n :: bs[..n][j] == bs[j];
      RunKeeps(st, bs[..n], answers, c);
      var prev := Run(st, bs[..n], answers);
      var v := answers(bs[n]).value;
      assert Run(st, bs, answers) == Apply(prev, bs[n], v);
      ApplyEntries(prev, bs[n], v, c);
    }
  }

  /** A name that some batch contains ends up labelled "SLIDE" or "NOT_SLIDE". */
  lemma {:induction false} RunLabels<N>(
    st: State<N>, bs: seq<seq<N>>, answers: seq<N> -> Option<seq<bool>>, c: N)
    requires Fits(answers, bs) && forall j | 0 <= j < |bs| :: answers(bs[j]).Some?
    requires exists j :: 0 <= j < |bs| && c in bs[j]
    ensures c in Run(st, bs, answers).manifest
    ensures Run(st, bs, answers).manifest[c] == "SLIDE" || Run(st, bs, answers).manifest[c] == "NOT_SLIDE"
    decreases |bs|
  {
    var n := |bs| - 1;
    assert forall j | 0 <= j < n :: bs[..n][j] == bs[j];
    var prev := Run(st, bs[..n], answers);
    var v := answers(bs[n]).value;
    ApplyEntries(prev, bs[n], v, c);
    if c !in bs[n] {
      var j :| 0 <= j < |bs| && c in bs[j];
      assert c in bs[..n][j];
      RunLabels(st, bs[..n], answers, c);
    }
  }

  /** No name occurs twice. */
  predicate Distinct<N(==)>(s: seq<N>)
  {
    forall a, b | 0 <= a < b < |s| :: s[a] != s[b]
  }

  /** No name occurs at two places of the batches, within one batch or across two. */
  ghost predicate DisjointBatches<N>(bs: seq<seq<N>>)
  {
    forall i, a, i', b | 0 <= i < |bs| && 0 <= a < |bs[i]| && 0 <= i' < |bs| && 0 <= b < |bs[i']|
      && (i != i' || a != b) :: bs[i][a] != bs[i'][b]
  }

  /** Filtering a listing without repeated names gives one without repeats. */
  lemma {:induction false} RemainingDistinct<N(!new)>(candidates: seq<N>, manifest: map<N, string>)
    requires Distinct(candidates)
    ensures Distinct(Remaining(candidates, manifest))
    decreases |candidates|
  {
    if candidates != [] {
      var tail := candidates[1..];
      assert Distinct(tail) by {
        assert forall a | 0 <= a < |tail| :: tail[a] == candidates[a + 1];
      }
      RemainingDistinct(tail, manifest);
      assert candidates[0] !in tail by {
        assert forall a | 0 <= a < |tail| :: tail[a] == candidates[a + 1];
      }
    }
  }

  /** Batches cut from a listing without repeats hold every name at one place only. */
  lemma BatchesDisjoint<N>(s: seq<N>)
    requires Distinct(s)
    ensures DisjointBatches(Batches(s))
  {
    var bs := Batches(s);
    forall i, a, i', b | 0 <= i < |bs| && 0 <= a < |bs[i]| && 0 <= i' < |bs| && 0 <= b < |bs[i']|
      && (i != i' || a != b)
      ensures bs[i][a] != bs[i'][b]
    {
      BatchesAreSlices(s, i);
      BatchesAreSlices(s, i');
      assert bs[i][a] == s[i * BATCH_SIZE + a];
      assert bs[i'][b] == s[i' * BATCH_SIZE + b];
      if i < i' {
        assert i * BATCH_SIZE + a < i' * BATCH_SIZE + b;
      } else if i' < i {
        assert i' * BATCH_SIZE + b < i * BATCH_SIZE + a;
      }
    }
  }

  /** In a listing without repeats, no name of the second part occurs in the first. */
  lemma DistinctSplit<N>(a: seq<N>, b: seq<N>)
    requires Distinct(a + b)
    ensures forall c <- b :: c !in a
  {
    forall x, y | 0 <= x < |a| && 0 <= y < |b|
      ensures a[x] != b[y]
    {
      assert (a + b)[x] == a[x] && (a + b)[|a| + y] == b[y];
    }
  }

  /** The run's manifest has exactly the loaded names and the batched ones. */
  lemma {:induction false} RunKeys<N>(
    st: State<N>, bs: seq<seq<N>>, answers: seq<N> -> Option<seq<bool>>, c: N)
    requires Fits(answers, bs) && forall j | 0 <= j < |bs| :: answers(bs[j]).Some?
    ensures c in Run(st, bs, answers).manifest <==> c in st.manifest || c in Flatten(bs)
    decreases |bs|
  {
    if bs != [] {
      var n := |bs| - 1;
      assert forall j | 0 <= j < n :: bs[..n][j] == bs[j];
      RunKeys(st, bs[..n], answers, c);
      ApplyEntries(Run(st, bs[..n], answers), bs[n], answers(bs[n]).value, c);
      assert bs == bs[..n] + [bs[n]];
      FlattenAppend(bs[..n], [bs[n]]);
      assert Flatten([bs[n]]) == bs[n] + Flatten([]);
    }
  }

  /** Resuming from a manifest that holds the loaded names and the names of a
      first part of the remaining ones leaves exactly the rest. */
  lemma ResumeRest<N(!new)>(
    candidates: seq<N>, loaded: map<N, string>, saved: map<N, string>, done: seq<N>, rest: seq<N>)
    requires Remaining(candidates, loaded) == done + rest && Distinct(done + rest)
    requires forall c :: c in saved <==> c in loaded || c in done
    ensures Remaining(candidates, saved) == rest
  {
    RemainingNarrow(candidates, loaded, saved);
    RemainingAppend(done, rest, saved);
    RemainingAllIn(done, saved);
    DistinctSplit(done, rest);
    forall c <- rest
      ensures c !in saved
    {
      assert c in done + rest;
    }
    RemainingNoneIn(rest, saved);
  }

  /** When no name is in two places, every batched name ends labelled by
      the classifier's own verdict for it: a later batch never relabels it. */
  lemma {:induction false} RunLabelIsVerdict<N>(
    st: State<N>, bs: seq<seq<N>>, answers: seq<N> -> Option<seq<bool>>, j: nat, k: nat)
    requires Fits(answers, bs) && forall i | 0 <= i < |bs| :: answers(bs[i]).Some?
    requires DisjointBatches(bs) && j < |bs| && k < |bs[j]|
    ensures bs[j][k] in Run(st, bs, answers).manifest
    ensures Run(st, bs, answers).manifest[bs[j][k]] == Label(answers(bs[j]).value[k])
    decreases |bs|
  {
    var n := |bs| - 1;
    var c := bs[j][k];
    assert forall i | 0 <= i < n :: bs[..n][i] == bs[i];
    var prev := Run(st, bs[..n], answers);
    var v := answers(bs[n]).value;
    assert Run(st, bs, answers) == Apply(prev, bs[n], v);
    if j == n {
      ApplyLabels(prev, bs[n], v, k);
    } else {
      RunLabelIsVerdict(st, bs[..n], answers, j, k);
      assert c !in bs[n] by {
        assert forall b | 0 <= b < |bs[n]| :: bs[n][b] != bs[j][k];
      }
      ApplyEntries(prev, bs[n], v, c);
    }
  }

  /** `[c for c in candidates if manifest.get(c) == "SLIDE" and the copy exists]`. */
  function SlideNames<N(==,!new)>(candidates: seq<N>, st: State<N>): (r: seq<N>)
    ensures forall c :: c in r <==>
      c in candidates && c in st.manifest && st.manifest[c] == "SLIDE" && c in st.files
  {
    if candidates == [] then []
    else
      var c := candidates[0];
      (if c in st.manifest && st.manifest[c] == "SLIDE" && c in st.files then [c] else [])
        + SlideNames(candidates[1..], st)
  }

  /** The batch loop, one batch: label every name, copy the slides. */
  method LabelBatch<N(==)>(st: State<N>, batch: seq<N>, verdicts: seq<bool>) returns (r: State<N>)
    requires |verdicts| == |batch|
    ensures r == Apply(st, batch, verdicts)
  {
    var manifest, files := st.manifest, st.files;
    for k := 0 to |batch|
      invariant State(manifest, files) == Apply(st, batch[..k], verdicts[..k])
    {
      assert batch[..k + 1][..k] == batch[..k];
      assert verdicts[..k + 1][..k] == verdicts[..k];
      manifest := manifest[batch[k] := Label(verdicts[k])];
      if verdicts[k] {
        files := files + {batch[k]};
      }
    }
    assert batch[..|batch|] == batch && verdicts[..|batch|] == verdicts;
    r := State(manifest, files);
  }

  /** `classify_slides`. `candidates` is the sorted listing of candidate
      frames, `stored` the manifest file if there is one, `files` the output
      directory, `classifier` the remote model (`None` when the request
      fails). Besides the outcome it yields the final state, every flushed
      manifest, and the batches sent to the classifier. */
  method ClassifySlides(
    candidates: seq<string>, stored: Option<map<string, string>>, files: set<string>,
    classifier: seq<string> -> Option<string>)
    returns (outcome: Outcome, st: State<string>, flushes: seq<map<string, string>>, requests: seq<seq<string>>)
    ensures candidates == [] ==>
      outcome == Done([]) && st == State(map[], files) && flushes == [] && requests == []
    ensures candidates != [] ==>
      var init := State(Loaded(stored), files);
      var bs := Batches(Remaining(candidates, init.manifest));
      var k := Answered(bs, Answers(classifier));
      && requests == bs[..if k < |bs| then k + 1 else k]
      && flushes == Flushes(init, bs[..k], Answers(classifier))
      && st == Run(init, bs[..k], Answers(classifier))
      && outcome == if k < |bs| then Aborted else Done(Names.SortNames(SlideNames(candidates, st)))
  {
    if candidates == [] {
      return Done([]), State(map[], files), [], [];
    }
    var init := State(Loaded(stored), files);
    var remaining := Remaining(candidates, init.manifest);
    if remaining == [] {
      st, flushes, requests := init, [], [];
      outcome := Done(Names.SortNames(SlideNames(candidates, st)));
      return;
    }
    var failed;
    st, flushes, requests, failed := ClassifyBatches(init, Batches(remaining), classifier);
    outcome := if failed then Aborted else Done(Names.SortNames(SlideNames(candidates, st)));
  }

  /** The loop over the batches: classify, label, copy, flush; a failed
      request ends it. */
  method ClassifyBatches<N(==)>(init: State<N>, batches: seq<seq<N>>, classifier: seq<N> -> Option<string>)
    returns (st: State<N>, flushes: seq<map<N, string>>, requests: seq<seq<N>>, failed: bool)
    ensures var k := Answered(batches, Answers(classifier));
      && (failed <==> k < |batches|)
      && requests == batches[..if k < |batches| then k + 1 else k]
      && flushes == Flushes(init, batches[..k], Answers(classifier))
      && st == Run(init, batches[..k], Answers(classifier))
  {
    ghost var answers := Answers(classifier);
    AnswersFit(classifier, batches);
    st, flushes, requests, failed := init, [], [], false;
    for b := 0 to |batches|
      invariant b <= Answered(batches, answers)
      invariant requests == batches[..b]
      invariant flushes == Flushes(init, batches[..b], answers)
      invariant st == Run(init, batches[..b], answers)
    {
      requests := batches[..b + 1];
      var answer := ClassifyBatch(classifier, batches[b]);
      if answer.None? {
        assert b == Answered(batches, answers);
        failed := true;
        return;
      }
      assert b < Answered(batches, answers);
      RunSnoc(init, batches, answers, b);
      st := LabelBatch(st, batches[b], answer.value);
      flushes := flushes + [st.manifest];
    }
    assert batches[..|batches|] == batches;
  }

  /** `_classify_batch`: one request, then the reply read line by line;
      `None` when the request fails. */
  method ClassifyBatch<N>(classifier: seq<N> -> Option<string>, batch: seq<N>)
    returns (answer: Option<seq<bool>>)
    ensures answer == Answers(classifier)(batch)
  {
    var reply := classifier(batch);
    if reply.None? {
      return None;
    }
    var verdicts := ParseReply(reply.value, |batch|);
    answer := Some(verdicts);
  }

  /** The manifests saved after each of the batches `bs`. */
  ghost function Flushes<N>(st: State<N>, bs: seq<seq<N>>, answers: seq<N> -> Option<seq<bool>>): (f: seq<map<N, string>>)
    requires Fits(answers, bs) && forall j | 0 <= j < |bs| :: answers(bs[j]).Some?
    ensures |f| == |bs|
    decreases |bs|
  {
    if bs == [] then []
    else
      var n := |bs| - 1;
      assert forall j | 0 <= j < n :: bs[..n][j] == bs[j];
      Flushes(st, bs[..n], answers) + [Run(st, bs, answers).manifest]
  }

  /** After the `j`-th batch the saved manifest is the loaded one with the
      labels of batches 0 .. j: a flush per batch, none skipped. */
  lemma {:induction false} FlushAfterBatch<N>(
    st: State<N>, bs: seq<seq<N>>, answers: seq<N> -> Option<seq<bool>>, j: nat)
    requires Fits(answers, bs) && forall i | 0 <= i < |bs| :: answers(bs[i]).Some?
    requires j < |bs|
    ensures Fits(answers, bs[..j + 1])
    ensures Flushes(st, bs, answers)[j] == Run(st, bs[..j + 1], answers).manifest
    ensures forall c :: c in Flushes(st, bs, answers)[j] <==> c in st.manifest || c in Flatten(bs[..j + 1])
    decreases |bs|
  {
    var n := |bs| - 1;
    assert forall i | 0 <= i <= j :: bs[..j + 1][i] == bs[i];
    forall c {
      RunKeys(st, bs[..j + 1], answers, c);
    }
    if j < n {
      assert forall i | 0 <= i < n :: bs[..n][i] == bs[i];
      FlushAfterBatch(st, bs[..n], answers, j);
      assert bs[..n][..j + 1] == bs[..j + 1];
    } else {
      assert bs[..j + 1] == bs;
    }
  }

  /** One more batch is one more application of the inner loop. */
  lemma RunSnoc<N>(st: State<N>, bs: seq<seq<N>>, answers: seq<N> -> Option<seq<bool>>, b: nat)
    requires b < |bs| && Fits(answers, bs) && forall j | 0 <= j <= b :: answers(bs[j]).Some?
    ensures Fits(answers, bs[..b]) && Fits(answers, bs[..b + 1])
    ensures Run(st, bs[..b + 1], answers) == Apply(Run(st, bs[..b], answers), bs[b], answers(bs[b]).value)
    ensures Flushes(st, bs[..b + 1], answers) == Flushes(st, bs[..b], answers) + [Run(st, bs[..b + 1], answers).manifest]
  {
    assert forall j | 0 <= j < b :: bs[..b][j] == bs[j];
    assert forall j | 0 <= j <= b :: bs[..b + 1][j] == bs[j];
    assert bs[..b + 1][..b] == bs[..b];
  }

  /** Every flushed manifest keeps the loaded entries as they were. */
  lemma LoadedKept(
    candidates: seq<string>, loaded: map<string, string>, files: set<string>,
    classifier: seq<string> -> Option<string>, k: nat, c: string)
    requires k <= Answered(Batches(Remaining(candidates, loaded)), Answers(classifier))
    requires c in loaded
    ensures c in Run(State(loaded, files), Batches(Remaining(candidates, loaded))[..k], Answers(classifier)).manifest
    ensures Run(State(loaded, files), Batches(Remaining(candidates, loaded))[..k], Answers(classifier)).manifest[c] == loaded[c]
  {
    var bs := Batches(Remaining(candidates, loaded));
    BatchesCover(Remaining(candidates, loaded));
    InFlatten(bs, c);
    assert forall j | 0 <= j < k :: bs[..k][j] == bs[j];
    RunKeeps(State(loaded, files), bs[..k], Answers(classifier), c);
  }

  /** The state after a run in which the classifier answers every batch. */
  function Completed(
    candidates: seq<string>, loaded: map<string, string>, files: set<string>,
    classifier: seq<string> -> Option<string>): State<string>
    requires Answered(Batches(Remaining(candidates, loaded)), Answers(classifier))
      == |Batches(Remaining(candidates, loaded))|
  {
    Run(State(loaded, files), Batches(Remaining(candidates, loaded)), Answers(classifier))
  }

  /** After a completed run every candidate has an entry; a candidate that
      had none before is labelled "SLIDE" or "NOT_SLIDE", and it is among the
      returned slides exactly when it is labelled "SLIDE". */
  lemma CompleteRun(
    candidates: seq<string>, loaded: map<string, string>, files: set<string>,
    classifier: seq<string> -> Option<string>, c: string)
    requires Answered(Batches(Remaining(candidates, loaded)), Answers(classifier))
      == |Batches(Remaining(candidates, loaded))|
    requires c in candidates
    ensures c in Completed(candidates, loaded, files, classifier).manifest
    ensures c !in loaded ==>
      var m := Completed(candidates, loaded, files, classifier).manifest;
      m[c] == "SLIDE" || m[c] == "NOT_SLIDE"
    ensures c !in loaded ==>
      var r := Completed(candidates, loaded, files, classifier);
      c in Names.SortNames(SlideNames(candidates, r)) <==> r.manifest[c] == "SLIDE"
  {
    var rem := Remaining(candidates, loaded);
    var bs := Batches(rem);
    var init := State(loaded, files);
    var r := Run(init, bs, Answers(classifier));
    if c in loaded {
      RunCovers(init, bs, Answers(classifier), c);
    } else {
      BatchesCover(rem);
      InFlatten(bs, c);
      RunLabels(init, bs, Answers(classifier), c);
      if r.manifest[c] == "SLIDE" {
        RunCopies(init, bs, Answers(classifier), c);
      }
      var out := Names.SortNames(SlideNames(candidates, r));
      assert c in out <==> c in multiset(out);
    }
  }

  /** In a completed run over a listing without repeated names, each
      classified candidate is labelled by the verdict the classifier gave at
      its place in its batch, and it is returned exactly when that verdict
      is a yes. */
  lemma CompleteRunVerdicts(
    candidates: seq<string>, loaded: map<string, string>, files: set<string>,
    classifier: seq<string> -> Option<string>, j: nat, k: nat)
    requires Answered(Batches(Remaining(candidates, loaded)), Answers(classifier))
      == |Batches(Remaining(candidates, loaded))|
    requires Distinct(candidates)
    requires j < |Batches(Remaining(candidates, loaded))| && k < |Batches(Remaining(candidates, loaded))[j]|
    ensures var bs := Batches(Remaining(candidates, loaded));
      var m := Completed(candidates, loaded, files, classifier).manifest;
      && bs[j][k] in candidates && bs[j][k] !in loaded && bs[j][k] in m
      && m[bs[j][k]] == Label(Answer(classifier, bs[j]).value[k])
    ensures var bs := Batches(Remaining(candidates, loaded));
      var r := Completed(candidates, loaded, files, classifier);
      bs[j][k] in Names.SortNames(SlideNames(candidates, r)) <==> Answer(classifier, bs[j]).value[k]
  {
    var rem := Remaining(candidates, loaded);
    var bs := Batches(rem);
    var answers := Answers(classifier);
    var init := State(loaded, files);
    var c := bs[j][k];
    BatchesCover(rem);
    InFlatten(bs, c);
    assert c in rem;
    RemainingDistinct(candidates, loaded);
    BatchesDisjoint(rem);
    AnswersFit(classifier, bs);
    assert answers(bs[j]) == Answer(classifier, bs[j]);
    RunLabelIsVerdict(init, bs, answers, j, k);
    CompleteRun(candidates, loaded, files, classifier, c);
  }

  /** A run interrupted after the `j`-th flush resumes from the saved
      manifest with exactly the names of the later batches, in order. */
  lemma ResumeAfterFlush(
    candidates: seq<string>, loaded: map<string, string>, files: set<string>,
    classifier: seq<string> -> Option<string>, j: nat)
    requires Distinct(candidates)
    requires j < Answered(Batches(Remaining(candidates, loaded)), Answers(classifier))
    ensures var bs := Batches(Remaining(candidates, loaded));
      var k := Answered(bs, Answers(classifier));
      Remaining(candidates, Flushes(State(loaded, files), bs[..k], Answers(classifier))[j]) == Flatten(bs[j + 1..])
  {
    var rem := Remaining(candidates, loaded);
    var bs := Batches(rem);
    var answers := Answers(classifier);
    var k := Answered(bs, answers);
    AnswersFit(classifier, bs[..k]);
    SavedKeys(State(loaded, files), bs, answers, k, j);
    BatchesSplit(rem, j);
    RemainingDistinct(candidates, loaded);
    ResumeRest(candidates, loaded, Flushes(State(loaded, files), bs[..k], answers)[j],
      Flatten(bs[..j + 1]), Flatten(bs[j + 1..]));
  }

  /** The manifest saved after batch `j` of the answered ones holds exactly
      the loaded names and the names of batches 0 .. j. */
  lemma SavedKeys<N>(st: State<N>, bs: seq<seq<N>>, answers: seq<N> -> Option<seq<bool>>, k: nat, j: nat)
    requires j < k <= |bs| && Fits(answers, bs[..k])
    requires forall i | 0 <= i < k :: answers(bs[i]).Some?
    ensures forall i | 0 <= i < |bs[..k]| :: answers(bs[..k][i]).Some?
    ensures forall c :: c in Flushes(st, bs[..k], answers)[j] <==> c in st.manifest || c in Flatten(bs[..j + 1])
  {
    assert forall i | 0 <= i < k :: bs[..k][i] == bs[i];
    FlushAfterBatch(st, bs[..k], answers, j);
    assert bs[..k][..j + 1] == bs[..j + 1];
  }

  /** The remaining names are those of the first `j + 1` batches followed
      by those of the later ones. */
  lemma BatchesSplit<N>(s: seq<N>, j: nat)
    requires j < |Batches(s)|
    ensures s == Flatten(Batches(s)[..j + 1]) + Flatten(Batches(s)[j + 1..])
  {
    var bs := Batches(s);
    BatchesCover(s);
    assert bs == bs[..j + 1] + bs[j + 1..];
    FlattenAppend(bs[..j + 1], bs[j + 1..]);
  }

  /** Once every candidate has an entry, nothing remains: a second run sends
      no request and reads its result from the manifest. */
  lemma RerunIsFree(candidates: seq<string>, manifest: map<string, string>)
    requires forall c <- candidates :: c in manifest
    ensures Remaining(candidates, manifest) == []
    ensures Batches(Remaining(candidates, manifest)) == []
  {
    if Remaining(candidates, manifest) != [] {
      assert Remaining(candidates, manifest)[0] in Remaining(candidates, manifest);
    }
  }
}

# slide-extractor, modelled in Dafny

slide-extractor turns a recorded lecture into a deck of slides, a summary and,
for a playlist, a course index. This project models the decision-making core
of that pipeline and proves what each stage promises:

- **detect** (`detect_transitions`): one pass over the perceptual hashes of
  consecutive frames. It keeps every frame that is followed by a jump larger
  than the threshold, and always keeps the last frame.
- **deduplicate** (`deduplicate`): near-duplicate slides are joined in a
  disjoint-set forest with path halving. The forest's classes are collected
  in first-seen order. The sharpest slide of each class is kept, and the kept
  slides are returned in name order.
- **classify** (`classify_slides`, `_classify_batch`): a resumable batch
  classifier. The model's reply is read one verdict per line, then padded or
  truncated to the batch. Each batch labels its names in the manifest, copies
  the slides and flushes the manifest. A failed request stops the run. The
  candidates come from a directory listing, so no name repeats. Under that
  hypothesis each new candidate ends labelled by its own verdict.
- **env** (`load_dotenv`): the first `.env` found walking upward is read line
  by line. Variables that already hold a non-empty value are not overwritten.
- **download** (`extract_video_id`, `extract_playlist_id`, `is_playlist`, the
  record loop of `enumerate_playlist`): URL recognition, written out as the
  leftmost-match search the regular expressions perform.
- **index** (`generate_index`): the Markdown course index, with numbered
  sections, links, and the bullet lines of each summary copied inline.
- **summarize** (`summarize_lecture`, `_format_duration`): the metadata
  defaults, the date reshaping, the choice of sample slides and the text of
  `summary.md`.

Python's string built-ins that the core relies on are defined once in module
`Text`. They are `str.strip` (with and without an explicit character set),
`str.splitlines`, ASCII `str.upper`, `in`, `str.partition` and integer
formatting. Python's ordering of strings (`sorted`, `list.sort` on names) is
defined in module `Names`. The listings the code obtains from `sorted(glob(...))`
are inputs. Perceptual hashes, sharpness and the remote language model are
function parameters, because their computation is outside the core.

`detect_transitions` documents that it returns a sorted list. Both of its
paths keep that promise: an existing candidate listing is returned sorted,
and the scan walks the sorted frame listing in ascending index order.
`Detect.CandidatesSorted` proves that the scan's result is strictly sorted
whenever the frame listing is.

## Model

| member | source | states |
|---|---|---|
| PerceptualHash.HashAll | src/slide_extractor/detect.py:41 | one hash per frame, in listing order, each equal to the hash function applied to that frame |
| PerceptualHash.Distance | src/slide_extractor/detect.py:48 | the Hamming distance of two 64-bit hashes is at most 64, and zero exactly when the hashes are equal |
| PerceptualHash.DistanceSymmetric | src/slide_extractor/deduplicate.py:67-69 | the distance does not depend on argument order, so testing only the pairs i < j covers every pair |
| Detect.SceneEnds | src/slide_extractor/detect.py:47-51 | the scene ends found among the first k adjacent pairs are exactly the i < k whose next frame is beyond the threshold, in ascending order |
| Detect.CandidateIndices | src/slide_extractor/detect.py:47-54 | the kept indices are exactly the last frame plus every frame followed by a jump; they are ascending, in range and end with the last frame; there are none only when there are no frames |
| Detect.ScanFrames | src/slide_extractor/detect.py:47-54 | the loop over adjacent pairs, then the final append, yields the frames at the candidate indices |
| Detect.DetectTransitions | src/slide_extractor/detect.py:30-54 | an existing candidate listing is returned unchanged; otherwise the result is the frames at the candidate indices of their hashes; a single frame is kept as it is |
| Detect.SceneEndsMonotone | src/slide_extractor/detect.py:49 | a larger threshold finds a subset of the scene ends, and no more of them |
| Detect.ThresholdMonotone | src/slide_extractor/detect.py:47-54 | a larger threshold keeps a subset of the frames, and no more of them |
| Detect.CandidateCount | src/slide_extractor/detect.py:47-54 | the number of candidates is one (the last frame) plus the number of jumps |
| Detect.PickStrictlySorted | src/slide_extractor/detect.py:35 | frames picked at ascending indices from a strictly sorted listing are strictly sorted |
| Detect.CandidatesSorted | src/slide_extractor/detect.py:23 | with the frames listed in name order, the candidates are returned in name order, as the docstring promises |
| Detect.TwoScenes | src/slide_extractor/detect.py:19-21 | with two scenes of five and seven frames, the last frame of each scene is kept |
| Names.BelowIrreflexive | src/slide_extractor/deduplicate.py:85 | no name sorts before itself |
| Names.BelowTotal | src/slide_extractor/deduplicate.py:85 | any two distinct names are ordered one way or the other |
| Names.BelowTransitive | src/slide_extractor/deduplicate.py:85 | the order of names is transitive |
| Names.BelowAsymmetric | src/slide_extractor/deduplicate.py:85 | two names are never ordered both ways |
| Names.Insert | src/slide_extractor/deduplicate.py:85 | insertion into a sorted list gives a sorted list with exactly one more occurrence of the inserted name |
| Names.SortNames | src/slide_extractor/deduplicate.py:85 | sorting yields an ascending permutation of its input |
| Names.SortStrictlySorted | src/slide_extractor/classify.py:143-145 | sorting an already strictly ascending listing leaves it unchanged |
| Names.SortedPermutationUnique | src/slide_extractor/deduplicate.py:85 | two ascending permutations of the same names are equal, so the sort has exactly one result |
| UnionFind.Halve | src/slide_extractor/deduplicate.py:58 | linking a non-root to its grandparent keeps the forest invariant and every element's representative |
| UnionFind.LinkRoots | src/slide_extractor/deduplicate.py:64-65 | hanging one root below another root keeps a forest whose representatives are the merged classes |
| UnionFind.MergeRootsMerged | src/slide_extractor/deduplicate.py:63-65 | relinking the root of b under the root of a merges exactly the two classes, and equal roots need no change |
| UnionFind.DisjointSet.Link | src/slide_extractor/deduplicate.py:65 | linking one root under another keeps the forest valid, and the class of the second root joins the first |
| UnionFind.DisjointSet.constructor | src/slide_extractor/deduplicate.py:54 | every element starts as its own representative |
| UnionFind.DisjointSet.Find | src/slide_extractor/deduplicate.py:56-60 | returns the root that represents x, and path halving changes no element's representative |
| UnionFind.DisjointSet.Union | src/slide_extractor/deduplicate.py:62-65 | afterwards every element of b's class has a's representative, and every other element keeps its own |
| Similarity.LinkedSelf | src/slide_extractor/deduplicate.py:67-70 | every slide is chained to itself |
| Similarity.LinkedNear | src/slide_extractor/deduplicate.py:69 | two near duplicates are chained |
| Similarity.LinkedSymmetric | src/slide_extractor/deduplicate.py:67-70 | the chain relation is symmetric |
| Similarity.LinkedTransitive | src/slide_extractor/deduplicate.py:67-70 | the chain relation is transitive |
| Similarity.SingletonsSound | src/slide_extractor/deduplicate.py:54 | before any union, elements that share a representative are chained |
| Similarity.MergeNearSound | src/slide_extractor/deduplicate.py:69-70 | merging the classes of two near duplicates keeps shared representatives chained |
| Similarity.MergeStep | src/slide_extractor/deduplicate.py:67-70 | one union in the pair loop keeps the loop invariant: soundness, and every visited near pair joined |
| Similarity.SkipStep | src/slide_extractor/deduplicate.py:69 | visiting a pair that is not near keeps the loop invariant |
| Similarity.RowDone | src/slide_extractor/deduplicate.py:67-68 | finishing row i of the pair loop moves the invariant to row i + 1 |
| Similarity.AllRowsDone | src/slide_extractor/deduplicate.py:67-70 | after the last row every near pair shares a representative |
| Similarity.ChainOneClass | src/slide_extractor/deduplicate.py:67-70 | once all near pairs are joined, the two ends of a chain share a representative |
| Similarity.LinkedOneClass | src/slide_extractor/deduplicate.py:67-70 | once all near pairs are joined, chained slides share a representative |
| Deduplicate.LinkSimilar | src/slide_extractor/deduplicate.py:67-70 | after the pair loop, two slides share a representative exactly when a chain of near duplicates joins them |
| Deduplicate.Members | src/slide_extractor/deduplicate.py:73-76 | the members of a class below k, ascending, and no others |
| Deduplicate.ExtendGroup | src/slide_extractor/deduplicate.py:76 | appending i to an existing key keeps the dictionary equal to the classes of the first i + 1 elements |
| Deduplicate.NoMembers | src/slide_extractor/deduplicate.py:76 | a representative not yet used as a key has no earlier members |
| Deduplicate.NewGroup | src/slide_extractor/deduplicate.py:76 | opening a key for i appends its representative to the key order with the one-element list [i] |
| Deduplicate.AddToGroup | src/slide_extractor/deduplicate.py:75-76 | one step of the grouping loop extends the dictionary to the first i + 1 elements |
| Deduplicate.CollectGroups | src/slide_extractor/deduplicate.py:73-76 | the dictionary maps each representative, in first-seen order, to the ascending list of its class members |
| Deduplicate.FirstMax | src/slide_extractor/deduplicate.py:81 | the position of a largest key, and the first such position, as `max` picks it |
| Deduplicate.SharpestOfGroup | src/slide_extractor/deduplicate.py:81 | the kept slide is a member of the group, at least as sharp as every member, and the lowest-numbered of the equally sharp |
| Deduplicate.PickSharpest | src/slide_extractor/deduplicate.py:81 | the selection loop returns the first sharpest member |
| Deduplicate.Representatives | src/slide_extractor/deduplicate.py:79-82 | one kept slide per group, in group order |
| Deduplicate.GroupsAreClasses | src/slide_extractor/deduplicate.py:73-80 | the dictionary's values in key order partition the slide indices, and each is exactly one class of the forest |
| Deduplicate.ClassesAreComponents | src/slide_extractor/deduplicate.py:67-80 | when the forest joins exactly the chained slides, two slides are in one group exactly when a chain joins them |
| Deduplicate.GroupSlides | src/slide_extractor/deduplicate.py:51-76 | the groups partition the slides and are exactly the chain components of the near-duplicate relation |
| Deduplicate.KeepSharpest | src/slide_extractor/deduplicate.py:79-82 | the kept slides are the sharpest of each group, in group order |
| Deduplicate.Deduplicate | src/slide_extractor/deduplicate.py:41-92 | an existing listing is returned unchanged; otherwise the result is sorted and is a permutation of one sharpest slide per chain component |
| Classify.NotSlideLine | src/slide_extractor/classify.py:69 | a NOT_SLIDE line contains SLIDE but is not a yes |
| Classify.Verdicts | src/slide_extractor/classify.py:66-74 | exactly n verdicts; verdict k is true exactly when line k exists and is a yes |
| Classify.LineVerdicts | src/slide_extractor/classify.py:68-69 | one verdict per line, each the yes test of that line |
| Classify.ParseReply | src/slide_extractor/classify.py:66-74 | reading a reply for a batch of n images gives the verdicts of its stripped lines, padded or truncated to n |
| Classify.ReadLines | src/slide_extractor/classify.py:67-69 | the loop yields one verdict per line |
| Classify.CaseInsensitive | src/slide_extractor/classify.py:69 | "Slide" is a yes and "not_slide" a no |
| Classify.Label | src/slide_extractor/classify.py:134 | the label is "SLIDE" exactly for a yes |
| Classify.Remaining | src/slide_extractor/classify.py:115 | exactly the candidates without a manifest entry, none added |
| Classify.Batches | src/slide_extractor/classify.py:129 | the number of batches is the remaining count divided by 10, rounded up |
| Classify.BatchesAreSlices | src/slide_extractor/classify.py:129 | batch j is the slice from j * 10 to (j + 1) * 10, cut at the end |
| Classify.BatchesCover | src/slide_extractor/classify.py:129 | batches are non-empty and at most 10 long, all but the last are full, and together they are the remaining list in order |
| Classify.Apply | src/slide_extractor/classify.py:133-138 | the inner loop never removes a copied file |
| Classify.ApplyEntries | src/slide_extractor/classify.py:133-135 | a batch adds exactly its names to the manifest and leaves other entries unchanged |
| Classify.ApplyCopies | src/slide_extractor/classify.py:135-138 | every name the batch labels "SLIDE" has been copied |
| Classify.ApplyLabels | src/slide_extractor/classify.py:133-135 | in a batch without repeated names, every name carries the label of its own verdict |
| Classify.Answer | src/slide_extractor/classify.py:32-74 | a batch gets verdicts exactly when the request succeeds, one per image |
| Classify.AnswersFit | src/slide_extractor/classify.py:72-74 | every answer has one verdict per name of its batch |
| Classify.Answered | src/slide_extractor/classify.py:131-132 | the number of leading batches answered before the first failure |
| Classify.RunCovers | src/slide_extractor/classify.py:131-141 | after the run every name of every batch has an entry, and no earlier entry is lost |
| Classify.RunCopies | src/slide_extractor/classify.py:131-141 | every "SLIDE" entry made by the run has its copy in the output directory |
| Classify.RunKeeps | src/slide_extractor/classify.py:131-141 | an entry for a name that no batch contains is never changed |
| Classify.RunKeys | src/slide_extractor/classify.py:131-136 | after the run a name has an entry exactly when it had one before or some batch holds it |
| Classify.RunLabels | src/slide_extractor/classify.py:131-141 | every name in some batch ends labelled "SLIDE" or "NOT_SLIDE" |
| Classify.RemainingDistinct | src/slide_extractor/classify.py:114 | filtering a listing without repeated names keeps it without repeats |
| Classify.BatchesDisjoint | src/slide_extractor/classify.py:128 | batches cut from a listing without repeats hold each name at one place only |
| Classify.RunLabelIsVerdict | src/slide_extractor/classify.py:131-136 | when no name is in two places, each batched name ends labelled by the classifier's verdict at its own place, so no later batch relabels it |
| Classify.SlideNames | src/slide_extractor/classify.py:143-144 | exactly the candidates labelled "SLIDE" whose copy exists |
| Classify.LabelBatch | src/slide_extractor/classify.py:133-138 | the loop over one batch gives the state of the inner-loop specification |
| Classify.ClassifyBatch | src/slide_extractor/classify.py:32-74 | one request and its reply give the answer the specification assigns to the batch |
| Classify.ClassifyBatches | src/slide_extractor/classify.py:131-141 | requests go out in order up to and including the first failure; the manifest is flushed after each answered batch; the final state is the run over the answered batches |
| Classify.ClassifySlides | src/slide_extractor/classify.py:106-147 | no candidates gives an empty result; otherwise the remaining candidates are classified batch by batch from the loaded manifest, and a complete run returns the sorted names labelled "SLIDE" whose copy exists |
| Classify.Flushes | src/slide_extractor/classify.py:140-141 | one saved manifest per batch |
| Classify.FlushAfterBatch | src/slide_extractor/classify.py:131-141 | the manifest saved after batch j is the one after running the first j + 1 batches, and its names are exactly the loaded ones and those of batches 0 .. j |
| Classify.SavedKeys | src/slide_extractor/classify.py:131-141 | among the answered batches, the manifest saved after batch j holds exactly the loaded names and those of batches 0 .. j |
| Classify.ResumeAfterFlush | src/slide_extractor/classify.py:95-96 | for a listing without repeats, a run resumed from the manifest saved after batch j has exactly the names of the later batches remaining, in order |
| Classify.ResumeRest | src/slide_extractor/classify.py:114 | filtering the candidates by a manifest that holds the loaded names plus a first part of the remaining ones leaves exactly the rest |
| Classify.BatchesSplit | src/slide_extractor/classify.py:128 | the remaining names are those of batches 0 .. j followed by those of the later batches |
| Classify.RunSnoc | src/slide_extractor/classify.py:131-141 | one more batch is one more application of the inner loop and one more flush |
| Classify.LoadedKept | src/slide_extractor/classify.py:112-141 | every flushed manifest keeps the loaded entries as they were |
| Classify.CompleteRun | src/slide_extractor/classify.py:115-145 | after a complete run every candidate has an entry; a new candidate is labelled "SLIDE" or "NOT_SLIDE" and is returned exactly when it is labelled "SLIDE" |
| Classify.CompleteRunVerdicts | src/slide_extractor/classify.py:114-143 | in a complete run over a listing without repeats, a classified candidate had no entry before, is labelled by its own verdict, and is returned exactly when that verdict is a yes |
| Classify.RerunIsFree | src/slide_extractor/classify.py:115-121 | once every candidate has an entry, nothing remains and no request is sent |
| Text.LeadingDropped | src/slide_extractor/env.py:13 | the leading run removed by a strip holds only removable characters and stops at a kept one |
| Text.TrailingDropped | src/slide_extractor/env.py:13 | the same for the trailing run |
| Text.TrimSlice | src/slide_extractor/env.py:13 | a stripped string is a slice of the original whose ends are kept characters, with only removable ones outside it |
| Text.SuffixTrailing | src/slide_extractor/env.py:13 | the characters a strip removes from the end of a suffix are all removable, and the last one kept is not |
| Text.TrimKeptEnds | src/slide_extractor/env.py:18 | a string whose ends are not removable is left unchanged by a strip |
| Text.TrimWithout | src/slide_extractor/env.py:18 | stripping adds no characters |
| Text.TrimKeepsPrefix | src/slide_extractor/index.py:54 | a prefix whose ends are not removable survives a strip |
| Text.UpperChar | src/slide_extractor/classify.py:69 | lower-case ASCII letters become upper-case; everything else is unchanged |
| Text.Upper | src/slide_extractor/classify.py:69 | upper-casing keeps the length and maps each character |
| Text.IndexOf | src/slide_extractor/env.py:16 | the position of the first occurrence, or the length when there is none |
| Text.SplitLines | src/slide_extractor/env.py:12 | no line holds a line break, and there are no lines exactly when the text is empty |
| Text.SplitLinesCons | src/slide_extractor/index.py:53 | a line followed by a newline splits off as the first line |
| Text.Unlines | src/slide_extractor/index.py:57-58 | writing lines each followed by a newline gives empty text exactly for no lines |
| Text.SplitUnlines | src/slide_extractor/index.py:53-58 | lines written out with newlines split back into the same lines |
| Text.UnlinesSnoc | src/slide_extractor/index.py:57-58 | writing one more line appends it and its newline |
| Text.NatToString | src/slide_extractor/index.py:31 | a non-empty run of digits with no leading zero unless the number is 0 |
| Text.IntToString | src/slide_extractor/summarize.py:23 | non-empty, and starting with a minus sign exactly for negative numbers |
| Text.Pad2 | src/slide_extractor/summarize.py:23 | at least two digits, exactly two below 100 |
| Text.ParseNatToString | src/slide_extractor/summarize.py:23-24 | reading back a formatted number gives the number |
| Text.ParsePad2 | src/slide_extractor/summarize.py:23-24 | reading back a zero-padded number gives the number |
| Env.ParseLine | src/slide_extractor/env.py:13-18 | a line yields no assignment exactly when, stripped, it is blank, a comment or has no `=` |
| Env.KeyHasNoEquals | src/slide_extractor/env.py:16-17 | a parsed key never holds `=` |
| Env.LoadLines | src/slide_extractor/env.py:12-20 | loading never removes a variable |
| Env.DotenvFile | src/slide_extractor/env.py:9-11 | a file is read exactly when some ancestor has one, and it is the nearest one |
| Env.LoadDotenv | src/slide_extractor/env.py:9-21 | without a file nothing changes; otherwise only the nearest file's lines are applied, and the loop stops at the first assignment that raises |
| Env.KeepsSetVariables | src/slide_extractor/env.py:19-20 | a variable that already holds a non-empty value is never overwritten |
| Env.FirstNonEmptyWins | src/slide_extractor/env.py:19-20 | for an unset variable, the first non-empty assignment in the file wins |
| Env.OnlyAssignedChange | src/slide_extractor/env.py:19-20 | a variable the file does not assign keeps its presence and value |
| Env.SkipsCommentsAndBareWords | src/slide_extractor/env.py:14-15 | comments and lines without `=` are skipped |
| Env.EmptyKeyAborts | src/slide_extractor/env.py:16-20 | a line `=x` reaches an assignment with an empty name, which raises and ends the load |
| Env.ParsedPartsFromLine | src/slide_extractor/env.py:16-18 | key and value hold only characters of the line |
| Env.CorrectedNeverAborts | src/slide_extractor/env.py:16-20 | when empty keys are skipped, a file without NUL characters always loads completely |
| Download.IdAt | src/slide_extractor/download.py:12 | an extracted id is 11 id characters that occur in the URL |
| Download.MatchAt | src/slide_extractor/download.py:12-13 | group 1 of a match is a valid id that occurs in the URL |
| Download.Search | src/slide_extractor/download.py:16 | a found id is valid and occurs in the URL |
| Download.SearchLeftmost | src/slide_extractor/download.py:16-18 | the search fails exactly when no position matches, and otherwise returns the match at the leftmost matching position |
| Download.SearchFindsFirst | src/slide_extractor/download.py:16 | the first matching position determines the result |
| Download.SearchIsFirst | src/slide_extractor/download.py:16 | the search returns the first match in the table of per-position matches |
| Download.FirstSomeLeftmost | src/slide_extractor/download.py:16-18 | the first present entry is absent exactly when every entry is, and otherwise sits at the leftmost present position |
| Download.ExtractVideoId | src/slide_extractor/download.py:9-19 | a returned id is valid and occurs in the URL |
| Download.ExtractFailsIffNoMatch | src/slide_extractor/download.py:15-19 | extraction raises exactly when neither pattern matches anywhere |
| Download.WatchFormFirst | src/slide_extractor/download.py:11-18 | the v=, /v/ or youtu.be/ form wins over an embed/ form anywhere in the URL |
| Download.WatchUrlRoundTrip | src/slide_extractor/download.py:9-19 | a valid id is recovered from its watch URL |
| Download.RunLength | src/slide_extractor/download.py:24 | the greedy `+` takes a maximal run of id characters |
| Download.ListAt | src/slide_extractor/download.py:24 | a match at a position is a non-empty, maximal run of id characters right after `?list=` or `&list=` |
| Download.PlaylistFrom | src/slide_extractor/download.py:24 | a found playlist id is non-empty and made of id characters |
| Download.PlaylistLeftmost | src/slide_extractor/download.py:24-25 | the playlist search fails exactly when no position matches, and otherwise returns the leftmost match |
| Download.PlaylistFindsFirst | src/slide_extractor/download.py:24 | the first matching position determines the playlist id |
| Download.PlaylistIsFirst | src/slide_extractor/download.py:24 | the playlist search returns the first match in the table of per-position playlist matches |
| Download.ExtractPlaylistId | src/slide_extractor/download.py:22-25 | a returned playlist id is non-empty and made of id characters |
| Download.PlaylistUrlRoundTrip | src/slide_extractor/download.py:22-25 | a playlist id is recovered from its playlist URL |
| Download.IsPlaylistIffMarker | src/slide_extractor/download.py:28-30 | a URL is a playlist exactly when `?list=` or `&list=` is followed by an id character |
| Download.VideoRecord | src/slide_extractor/download.py:51-56 | the id defaults to "", the title to the id, and the URL is the id's watch URL |
| Download.PlaylistVideos | src/slide_extractor/download.py:48-57 | one video per listing line, in order |
| Download.RecordUrlRoundTrip | src/slide_extractor/download.py:51-56 | a listed video with a valid id leads back to that id through its URL |
| Index.Bullets | src/slide_extractor/index.py:52-55 | only bullet lines of the summary, and never more lines than it has |
| Index.BulletsComplete | src/slide_extractor/index.py:52-55 | every bullet line of the summary is copied |
| Index.BulletsAppend | src/slide_extractor/index.py:52-55 | copying keeps the order of the summary |
| Index.BulletBlock | src/slide_extractor/index.py:48-59 | the bullet block is empty exactly when there is no summary or it has no bullets |
| Index.Links | src/slide_extractor/index.py:32-44 | the video link comes first, the slides link is present exactly when the PDF exists, and the summary link exactly when the summary exists |
| Index.LinkLineText | src/slide_extractor/index.py:32-44 | the link line reads [Video](url), then each present link after a bar separator, slides before summary |
| Index.SectionList | src/slide_extractor/index.py:25 | the k-th section is numbered first + k and describes the k-th video |
| Index.SectionsSplit | src/slide_extractor/index.py:25 | the sections of two runs of videos are those of the first, then those of the second numbered on |
| Index.IndexSnoc | src/slide_extractor/index.py:25-59 | adding a video to the playlist appends its section, numbered after the others |
| Index.SectionOrder | src/slide_extractor/index.py:25-31 | video k's section is numbered k + 1 and sits between the sections of the videos before and after it |
| Index.SingleSection | src/slide_extractor/index.py:25-31 | a playlist of one video renders exactly that video's section |
| Index.IndexPrefixStep | src/slide_extractor/index.py:25-59 | processing one more video of the playlist appends that video's section, numbered by its position |
| Index.IndexHeading | src/slide_extractor/index.py:23 | the index opens with the playlist title as a level-one heading |
| Index.AppendBullets | src/slide_extractor/index.py:56-59 | appends each bullet on its own line, then a blank line |
| Index.AppendSection | src/slide_extractor/index.py:26-59 | one iteration appends exactly the section of its video |
| Index.GenerateIndex | src/slide_extractor/index.py:23-61 | the text written is the title heading followed by every video's section, numbered from 1 in playlist order |
| Summarize.ClockParts | src/slide_extractor/summarize.py:20-21 | hours, minutes and seconds add back up to the input, with minutes and seconds below 60 |
| Summarize.ParseThree | src/slide_extractor/summarize.py:23 | an h:mm:ss text reads back as its number of seconds |
| Summarize.ParseTwo | src/slide_extractor/summarize.py:24 | an m:ss text reads back as its number of seconds |
| Summarize.FieldsThree | src/slide_extractor/summarize.py:23 | three colon-free fields joined by colons split back into exactly those three fields |
| Summarize.HoursTextRoundTrip | src/slide_extractor/summarize.py:23 | an "h:mm:ss" reading of a duration has three fields and reads back as that duration |
| Summarize.MinutesTextRoundTrip | src/slide_extractor/summarize.py:24 | an "m:ss" reading of a duration has two fields and reads back as that duration |
| Summarize.FormatDurationRoundTrip | src/slide_extractor/summarize.py:18-24 | a formatted duration reads back as the same seconds, and has three fields exactly from one hour up |
| Summarize.FormatDurationChars | src/slide_extractor/summarize.py:23-24 | a formatted duration holds no line break |
| Summarize.ReshapeDate | src/slide_extractor/summarize.py:57-58 | an 8-character date becomes 10 characters with dashes at positions 4 and 7; other dates are unchanged |
| Summarize.ReshapeDateInverse | src/slide_extractor/summarize.py:57-58 | removing the dashes gives back the original date |
| Summarize.HeaderOf | src/slide_extractor/summarize.py:50-54 | a missing title or uploader becomes "Unknown", a missing duration 0 and a missing date "" |
| Summarize.WithoutSlidesIsPrefix | src/slide_extractor/summarize.py:65-69 | the summary written without slides is the beginning of the one written with them |
| Summarize.HeaderLinesUnbroken | src/slide_extractor/summarize.py:113-117 | with one-line metadata, every header line is a single line |
| Summarize.DurationLineUnbroken | src/slide_extractor/summarize.py:115 | the duration line is a single line |
| Summarize.VideoLineUnbroken | src/slide_extractor/summarize.py:114 | the video line is a single line when the URL is |
| Summarize.HeaderLines | src/slide_extractor/summarize.py:113-117 | the header text reads back as the title, a blank line and the four field lines |
| Summarize.FieldLinesAreNotBullets | src/slide_extractor/summarize.py:114-117 | none of the four field lines counts as a bullet when the index copies a summary |
| Summarize.Step | src/slide_extractor/summarize.py:74 | the step is at least 1, and the samples taken at that step stay within the slides |
| Summarize.SampleIndices | src/slide_extractor/summarize.py:73-75 | min(5, count) indices, the k-th equal to k times the step, ascending and all in range |
| Summarize.StepFits | src/slide_extractor/summarize.py:74 | n times (count / n) never exceeds count |
| Summarize.SampleAt | src/slide_extractor/summarize.py:75 | each sampled index is below the slide count |
| Summarize.FewSlidesAllShown | src/slide_extractor/summarize.py:73-75 | with at most five slides, every slide is sampled |
| Summarize.WriteHeader | src/slide_extractor/summarize.py:113-117 | the appended lines give the header text |
| Summarize.SummarizeLecture | src/slide_extractor/summarize.py:42-118 | an existing summary is kept; without slides the header alone is written; otherwise the sampled slides are chosen, a failed request writes nothing, and a reply gives the header, a blank line and the stripped reply under "## Summary" |

## Left out

- File-system effects are not modelled: globbing, `mkdir`, copying, reading and writing files, and the JSON encoding of the manifest. Listings, file existence, file contents and the manifest are values. Copies are names added to a set.
- Detect.DetectTransitions and Deduplicate.Deduplicate return names, not output-directory paths. Copying a name into another directory keeps the name.
- Computing perceptual hashes from pixels and sharpness from a Laplacian-like filter is not modelled. Both are function parameters. Sharpness is an integer, where the source uses a float variance.
- The language model is not modelled. In `classify_slides` it is a function parameter that maps a batch to a reply, or to a failure. In `summarize_lecture` its reply is an input, `None` when the request raises. Building the prompt, base64 encoding and the system prompt are not modelled.
- Summarize.SummarizeLecture: a failed request is the outcome `Failed`, and nothing is written. The exception type and its message are not modelled.
- Classify.ClassifySlides: a failed request ends the run as an abort outcome. The exception type and its message are not modelled. A manifest file that is not valid JSON is not modelled. Creating the client and reading an image can also raise. The model treats either as a failure of that batch's request, so `requests` then lists a batch that was never sent. The outcome and the flushed manifests are the same as for a failed request.
- Text.Upper: `str.upper` is modelled on ASCII letters only. Python also maps some non-ASCII letters to ASCII ones (for example the long s to `S`), so a few exotic reply lines are judged differently.
- yt-dlp and the subprocess calls of `enumerate_playlist`, `get_video_metadata` and `download` are not modelled. The listing and the metadata are inputs. `download`, which only calls yt-dlp, is not modelled.
- JSON values that are not strings are not modelled, such as a null title or date or a float duration. Metadata fields are strings, and the duration is an integer.
- The metadata `description` is fetched by `summarize_lecture` but never used, so it is not modelled.
- Index.GenerateIndex: the source looks up whether `summary.md` exists twice. The model reads one flag, so it does not model the file appearing or vanishing between the two look-ups.
- Index.Links: relative link targets are `video_id + "/slides.pdf"`. Path normalisation by `relative_to` is not modelled. For an empty id or `.` the source links to `slides.pdf` and the model to `/slides.pdf` or `./slides.pdf`. Ids holding `/` or `..` components are not modelled either.
- Env.LoadDotenv: resolving the package directory and its ancestors is not modelled. The ancestors' `.env` contents are an input. The assignment refused by `os.environ` is modelled after POSIX `setenv`; Windows rules are not modelled.
- Download.ExtractVideoId: only the two regular expressions of the source are modelled, written as a search. No general regular-expression engine is modelled.
- Console output and progress bars are not modelled.
- extract.py, compile.py and cli.py are not part of this model.

## Findings

| source | as written | input that shows it | evidently intended | confidence | as-written member | corrected member |
|---|---|---|---|---|---|---|
| src/slide_extractor/env.py:16-20 | a line whose key is empty after stripping is assigned with `os.environ[""] = value`; Python refuses an empty variable name and raises, and since `load_dotenv` runs at import of the classify and summarize modules, the import fails | a `.env` line `=x` with no variable named "" set | lines with an empty key are passed over like other malformed lines | medium, not executed | Env.EmptyKeyAborts | Env.CorrectedNeverAborts |
